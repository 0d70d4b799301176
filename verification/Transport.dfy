/** Transport configurations and the connection key under which sessions are pooled. */
module Transport {
  import opened Common

  datatype TransportType = Ssh | Local | Tcp | Wsl

  type Port = n: int | 0 <= n < 65536

  /** The fields of the configurations that name the remote end; credentials and timeouts play no part in the key. */
  datatype SshConfig = SshConfig(host: string, port: Port, username: string)
  datatype LocalConfig = LocalConfig(binaryPath: string)
  datatype TlsConfig = TlsConfig(enabled: bool)
  datatype TcpConfig = TcpConfig(host: string, port: Port, tls: Option<TlsConfig>)
  datatype WslConfig = WslConfig(distribution: Option<string>, user: Option<string>)

  datatype TransportConfig = TransportConfig(
    transportType: TransportType,
    ssh: Option<SshConfig>,
    local: Option<LocalConfig>,
    tcp: Option<TcpConfig>,
    wsl: Option<WslConfig>)

  function Digit(n: nat): char
    requires n < 10
  {
    '0' + n as char
  }

  function Decimal(n: nat): string {
    if n < 10 then [Digit(n)] else Decimal(n / 10) + [Digit(n % 10)]
  }

  function OrDefault(text: Option<string>): string {
    match text
    case Some(t) => t
    case None => "default"
  }

  predicate UsesTls(tcp: TcpConfig) {
    tcp.tls.Some? && tcp.tls.value.enabled
  }

  function SshKey(c: SshConfig): string {
    "ssh://" + (c.username + ['@'] + (c.host + [':'] + Decimal(c.port)))
  }

  function TcpKey(c: TcpConfig): string {
    (if UsesTls(c) then "tcps://" else "tcp://") + (c.host + [':'] + Decimal(c.port))
  }

  function WslKey(c: WslConfig): string {
    "wsl://" + (OrDefault(c.user) + ['@'] + OrDefault(c.distribution))
  }

  function ConnectionKey(c: TransportConfig): string {
    match c.transportType
    case Ssh => if c.ssh.Some? then SshKey(c.ssh.value) else "ssh://unknown"
    case Local => "local://" + (if c.local.Some? then c.local.value.binaryPath else "unknown")
    case Tcp => if c.tcp.Some? then TcpKey(c.tcp.value) else "tcp://unknown"
    case Wsl => if c.wsl.Some? then WslKey(c.wsl.value) else "wsl://default"
  }

  /** The place a session talks to. A missing section is an end of its own, except that a missing local
      section and a missing WSL user or distribution are what their printed names say. */
  datatype Endpoint =
    | SshEnd(user: string, host: string, port: Port)
    | LocalEnd(path: string)
    | TcpEnd(tls: bool, host: string, port: Port)
    | WslEnd(user: string, distribution: string)
    | Unspecified(kind: TransportType)

  function EndpointOf(c: TransportConfig): Endpoint {
    match c.transportType
    case Ssh =>
      if c.ssh.Some? then SshEnd(c.ssh.value.username, c.ssh.value.host, c.ssh.value.port) else Unspecified(Ssh)
    case Local => LocalEnd(if c.local.Some? then c.local.value.binaryPath else "unknown")
    case Tcp =>
      if c.tcp.Some? then TcpEnd(UsesTls(c.tcp.value), c.tcp.value.host, c.tcp.value.port) else Unspecified(Tcp)
    case Wsl =>
      if c.wsl.Some? then WslEnd(OrDefault(c.wsl.value.user), OrDefault(c.wsl.value.distribution))
      else Unspecified(Wsl)
  }

  /** A name that is not given is the default one. */
  predicate SameName(a: Option<string>, b: Option<string>) {
    a == b || (a.None? && b == Some("default")) || (a == Some("default") && b.None?)
  }

  /** When two endpoints of one type are the same: a TCP connection is encrypted if its TLS section says so, and a
      missing section does not. */
  lemma SameEndpointIff(a: TransportConfig, b: TransportConfig)
    requires a.transportType == b.transportType
    ensures a.tcp.Some? && b.tcp.Some? && a.transportType.Tcp? ==>
              var (x, y) := (a.tcp.value, b.tcp.value);
              EndpointOf(a) == EndpointOf(b) <==>
              && x.host == y.host && x.port == y.port
              && ((exists tls :: x.tls == Some(tls) && tls.enabled) <==>
                  (exists tls :: y.tls == Some(tls) && tls.enabled))
    ensures a.wsl.Some? && b.wsl.Some? && a.transportType.Wsl? ==>
              var (x, y) := (a.wsl.value, b.wsl.value);
              EndpointOf(a) == EndpointOf(b) <==> SameName(x.user, y.user) && SameName(x.distribution, y.distribution)
  {
    if a.tcp.Some? && b.tcp.Some? && a.transportType.Tcp? {
      TlsIff(a.tcp.value);
      TlsIff(b.tcp.value);
    }
  }

  lemma TlsIff(c: TcpConfig)
    ensures UsesTls(c) <==> exists tls :: c.tls == Some(tls) && tls.enabled
  {
    if c.tls.Some? && c.tls.value.enabled {
      assert c.tls == Some(c.tls.value);
    }
  }

  /** What a key tells apart: user and host, or user and distribution, only joined by the separator between them. */
  datatype Locator =
    | SshAt(userAtHost: string, port: Port)
    | LocalAt(path: string)
    | TcpAt(tls: bool, host: string, port: Port)
    | WslAt(userAtDistribution: string)
    | Nowhere(kind: TransportType)

  function LocatorOf(c: TransportConfig): Locator {
    match EndpointOf(c)
    case SshEnd(user, host, port) => SshAt(user + ['@'] + host, port)
    case LocalEnd(path) => LocalAt(path)
    case TcpEnd(tls, host, port) => TcpAt(tls, host, port)
    case WslEnd(user, distribution) => WslAt(user + ['@'] + distribution)
    case Unspecified(kind) => Nowhere(kind)
  }

  /** The separator between user and host, or user and distribution, is the only one. */
  predicate Unambiguous(c: TransportConfig) {
    match EndpointOf(c)
    case SshEnd(user, host, _) => '@' !in user && '@' !in host
    case WslEnd(user, distribution) => '@' !in user && '@' !in distribution
    case _ => true
  }

  /** No user name of `c` contains the separator the key puts after it. */
  predicate PlainUser(c: TransportConfig) {
    match EndpointOf(c)
    case SshEnd(user, _, _) => '@' !in user
    case WslEnd(user, _) => '@' !in user
    case _ => true
  }

  function DecimalValue(s: string): int {
    if s == [] then 0 else 10 * DecimalValue(s[..|s| - 1]) + (s[|s| - 1] as int - '0' as int)
  }

  lemma {:induction false} DecimalReadsBack(n: nat)
    ensures DecimalValue(Decimal(n)) == n
    ensures ':' !in Decimal(n)
  {
    if n < 10 {
    } else {
      DecimalReadsBack(n / 10);
      assert Decimal(n)[..|Decimal(n)| - 1] == Decimal(n / 10);
    }
  }

  lemma SplitAtFirst(a: string, x: string, b: string, y: string, c: char)
    requires c !in a && c !in b
    ensures a + [c] + x == b + [c] + y <==> a == b && x == y
  {
    var s, t := a + [c] + x, b + [c] + y;
    if s == t {
      assert s[|a|] == c && t[|b|] == c;
      assert |a| == |b|;
      assert a == s[..|a|] && b == t[..|b|];
      assert x == s[|a| + 1..] && y == t[|b| + 1..];
    }
  }

  lemma SplitAtLast(a: string, x: string, b: string, y: string, c: char)
    requires c !in x && c !in y
    ensures a + [c] + x == b + [c] + y <==> a == b && x == y
  {
    var s, t := a + [c] + x, b + [c] + y;
    if s == t {
      assert s[|a|] == c && t[|b|] == c;
      assert |a| == |b|;
      assert a == s[..|a|] && b == t[..|b|];
      assert x == s[|a| + 1..] && y == t[|b| + 1..];
    }
  }

  /** `host:port` can be read back whatever the host is, an IPv6 address included. */
  lemma HostPortSplits(h1: string, p1: Port, h2: string, p2: Port)
    ensures h1 + [':'] + Decimal(p1) == h2 + [':'] + Decimal(p2) <==> h1 == h2 && p1 == p2
  {
    DecimalReadsBack(p1);
    DecimalReadsBack(p2);
    SplitAtLast(h1, Decimal(p1), h2, Decimal(p2), ':');
  }

  lemma PrefixCancels(p: string, a: string, b: string)
    ensures p + a == p + b <==> a == b
  {
    assert (p + a)[|p|..] == a && (p + b)[|p|..] == b;
  }

  lemma SshKeysSplit(a: SshConfig, b: SshConfig)
    ensures SshKey(a) == SshKey(b)
       <==> a.username + ['@'] + a.host == b.username + ['@'] + b.host && a.port == b.port
  {
    var x, y := a.username + ['@'] + a.host, b.username + ['@'] + b.host;
    assert a.username + ['@'] + (a.host + [':'] + Decimal(a.port)) == x + [':'] + Decimal(a.port);
    assert b.username + ['@'] + (b.host + [':'] + Decimal(b.port)) == y + [':'] + Decimal(b.port);
    PrefixCancels("ssh://", x + [':'] + Decimal(a.port), y + [':'] + Decimal(b.port));
    HostPortSplits(x, a.port, y, b.port);
  }

  lemma TcpKeysSplit(a: TcpConfig, b: TcpConfig)
    ensures TcpKey(a) == TcpKey(b) <==> UsesTls(a) == UsesTls(b) && a.host == b.host && a.port == b.port
  {
    HostPortSplits(a.host, a.port, b.host, b.port);
    if UsesTls(a) != UsesTls(b) {
      assert TcpKey(a)[3] != TcpKey(b)[3];
    } else {
      PrefixCancels(if UsesTls(a) then "tcps://" else "tcp://",
                    a.host + [':'] + Decimal(a.port), b.host + [':'] + Decimal(b.port));
    }
  }

  lemma WslKeysSplit(a: WslConfig, b: WslConfig)
    ensures WslKey(a) == WslKey(b)
       <==> OrDefault(a.user) + ['@'] + OrDefault(a.distribution)
            == OrDefault(b.user) + ['@'] + OrDefault(b.distribution)
  {
    PrefixCancels("wsl://", OrDefault(a.user) + ['@'] + OrDefault(a.distribution),
                  OrDefault(b.user) + ['@'] + OrDefault(b.distribution));
  }

  /** A key printed from a section is never the fixed text used when the section is missing. */
  lemma MissingSectionKeys(c: TransportConfig)
    ensures c.ssh.Some? ==> SshKey(c.ssh.value) != "ssh://unknown"
    ensures c.tcp.Some? ==> TcpKey(c.tcp.value) != "tcp://unknown"
    ensures c.wsl.Some? ==> WslKey(c.wsl.value) != "wsl://default"
  {
    if c.ssh.Some? {
      assert SshKey(c.ssh.value)[6 + |c.ssh.value.username|] == '@';
      assert '@' in SshKey(c.ssh.value) && '@' !in "ssh://unknown";
    }
    if c.tcp.Some? {
      var k := TcpKey(c.tcp.value);
      var i := (if UsesTls(c.tcp.value) then 7 else 6) + |c.tcp.value.host|;
      assert k[i] == ':' && i >= 6;
      assert forall j :: 6 <= j < |"tcp://unknown"| ==> "tcp://unknown"[j] != ':';
    }
    if c.wsl.Some? {
      assert WslKey(c.wsl.value)[6 + |OrDefault(c.wsl.value.user)|] == '@';
      assert '@' in WslKey(c.wsl.value) && '@' !in "wsl://default";
    }
  }

  lemma KeyInitials(c: TransportConfig)
    ensures |ConnectionKey(c)| > 3
    ensures ConnectionKey(c)[0]
         == match c.transportType case Ssh => 's' case Local => 'l' case Tcp => 't' case Wsl => 'w'
  {
  }

  /** For all configurations: two keys are equal exactly when the locators are. */
  lemma KeysEqualIff(a: TransportConfig, b: TransportConfig)
    ensures ConnectionKey(a) == ConnectionKey(b) <==> LocatorOf(a) == LocatorOf(b)
  {
    KeyInitials(a);
    KeyInitials(b);
    MissingSectionKeys(a);
    MissingSectionKeys(b);
    if a.transportType == b.transportType {
      match a.transportType
      case Ssh => if a.ssh.Some? && b.ssh.Some? { SshKeysSplit(a.ssh.value, b.ssh.value); }
      case Tcp => if a.tcp.Some? && b.tcp.Some? { TcpKeysSplit(a.tcp.value, b.tcp.value); }
      case Wsl => if a.wsl.Some? && b.wsl.Some? { WslKeysSplit(a.wsl.value, b.wsl.value); }
      case Local =>
        PrefixCancels("local://", EndpointOf(a).path, EndpointOf(b).path);
    }
  }

  lemma SplitIsTheOnlyOne(a: string, x: string, b: string, y: string, c: char)
    requires c !in a && c !in x
    ensures a + [c] + x == b + [c] + y <==> a == b && x == y
  {
    var s, t := a + [c] + x, b + [c] + y;
    if s == t {
      assert t[|b|] == c;
      assert forall i :: 0 <= i < |s| && s[i] == c ==> i == |a|;
      assert |a| == |b|;
      assert a == s[..|a|] && b == t[..|b|];
      assert x == s[|a| + 1..] && y == t[|b| + 1..];
    }
  }

  /** Two requests share a pool exactly when they name the same endpoint, if the separator occurs only once in one of
      them, or in neither user name. */
  lemma KeyIdentifiesEndpoint(a: TransportConfig, b: TransportConfig)
    requires Unambiguous(a) || (PlainUser(a) && PlainUser(b))
    ensures ConnectionKey(a) == ConnectionKey(b) <==> EndpointOf(a) == EndpointOf(b)
  {
    KeysEqualIff(a, b);
    match (EndpointOf(a), EndpointOf(b))
    case (SshEnd(u, h, _), SshEnd(v, k, _)) =>
      if Unambiguous(a) { SplitIsTheOnlyOne(u, h, v, k, '@'); } else { SplitAtFirst(u, h, v, k, '@'); }
    case (WslEnd(u, d), WslEnd(v, e)) =>
      if Unambiguous(a) { SplitIsTheOnlyOne(u, d, v, e, '@'); } else { SplitAtFirst(u, d, v, e, '@'); }
    case _ =>
  }

  /** A second separator gives a second way to read the joined text. */
  lemma OtherReading(user: string, host: string) returns (u: string, h: string)
    requires '@' in user || '@' in host
    ensures u + ['@'] + h == user + ['@'] + host && u != user
  {
    if '@' in user {
      var i :| 0 <= i < |user| && user[i] == '@';
      u, h := user[..i], user[i + 1..] + ['@'] + host;
      assert user == user[..i] + ['@'] + user[i + 1..];
    } else {
      var i :| 0 <= i < |host| && host[i] == '@';
      u, h := user + ['@'] + host[..i], host[i + 1..];
      assert host == host[..i] + ['@'] + host[i + 1..];
    }
  }

  /** The exact condition on one request: its key stands for its endpoint alone, against every other configuration,
      exactly when the separator occurs only where the key puts it. */
  lemma UnambiguousIff(a: TransportConfig)
    ensures (forall b :: ConnectionKey(a) == ConnectionKey(b) ==> EndpointOf(a) == EndpointOf(b)) <==> Unambiguous(a)
  {
    if Unambiguous(a) {
      forall b | ConnectionKey(a) == ConnectionKey(b) ensures EndpointOf(a) == EndpointOf(b) {
        KeyIdentifiesEndpoint(a, b);
      }
    } else if EndpointOf(a).SshEnd? {
      var u, h := OtherReading(EndpointOf(a).user, EndpointOf(a).host);
      var b := a.(ssh := Some(SshConfig(h, EndpointOf(a).port, u)));
      KeysEqualIff(a, b);
    } else {
      var u, d := OtherReading(EndpointOf(a).user, EndpointOf(a).distribution);
      var b := a.(wsl := Some(WslConfig(Some(d), Some(u))));
      KeysEqualIff(a, b);
    }
  }

  /** For example, two different SSH endpoints that share a key. */
  lemma AtSignConfusesEndpoints() returns (a: TransportConfig, b: TransportConfig)
    ensures ConnectionKey(a) == ConnectionKey(b) && EndpointOf(a) != EndpointOf(b)
  {
    a := TransportConfig(Ssh, Some(SshConfig("c", 22, "a@b")), None, None, None);
    b := TransportConfig(Ssh, Some(SshConfig("b@c", 22, "a")), None, None, None);
    assert "a@b" + ['@'] + "c" == "a" + ['@'] + "b@c";
    KeysEqualIff(a, b);
  }
}
