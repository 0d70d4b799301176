/** The binary upload: base64 (section 4 of RFC 4648) cut into chunks that the remote shell decodes one by one and
    appends to a file (crates/client/src/transport/ssh.rs). */
module Upload {
  import opened Common
  import opened Framing

  function Letter(v: int): char
    requires 0 <= v < 64
  {
    if v < 26 then 'A' + v as char
    else if v < 52 then 'a' + (v - 26) as char
    else if v < 62 then '0' + (v - 52) as char
    else if v == 62 then '+' else '/'
  }

  function Value(c: char): (v: Option<int>)
    ensures v.Some? ==> 0 <= v.value < 64
  {
    if 'A' <= c <= 'Z' then Some(c as int - 'A' as int)
    else if 'a' <= c <= 'z' then Some(c as int - 'a' as int + 26)
    else if '0' <= c <= '9' then Some(c as int - '0' as int + 52)
    else if c == '+' then Some(62)
    else if c == '/' then Some(63)
    else None
  }

  lemma ValueOfLetter(v: int)
    requires 0 <= v < 64
    ensures Value(Letter(v)) == Some(v) && Letter(v) != '='
  {
  }

  // ----- Encoding and decoding -----

  function Quad(a: Byte, b: Byte, c: Byte): string {
    [Letter(a / 4), Letter((a % 4) * 16 + b / 16), Letter((b % 16) * 4 + c / 64), Letter(c % 64)]
  }

  /** The four characters for a group of three bytes, or for the last one or two. */
  function EncodeGroup(group: seq<Byte>): (quad: string)
    ensures |quad| == 4
  {
    if group == [] then "===="
    else if |group| == 1 then Quad(group[0], 0, 0)[..2] + "=="
    else if |group| == 2 then Quad(group[0], group[1], 0)[..3] + "="
    else Quad(group[0], group[1], group[2])
  }

  /** The bytes group by group, under any code for a group. */
  function EncodeBy(code: seq<Byte> -> string, bytes: seq<Byte>): string {
    if bytes == [] then "" else
      var n := Min(3, |bytes|);
      code(bytes[..n]) + EncodeBy(code, bytes[n..])
  }

  function Encode64(bytes: seq<Byte>): string {
    EncodeBy(EncodeGroup, bytes)
  }

  lemma {:induction false} LengthBy(code: seq<Byte> -> string, bytes: seq<Byte>)
    requires forall group :: |code(group)| == 4
    ensures |EncodeBy(code, bytes)| == 4 * ((|bytes| + 2) / 3)
  {
    if bytes != [] {
      LengthBy(code, bytes[Min(3, |bytes|)..]);
    }
  }

  lemma {:induction false} CutsBy(code: seq<Byte> -> string, bytes: seq<Byte>, groups: nat)
    requires 3 * groups <= |bytes|
    ensures EncodeBy(code, bytes) == EncodeBy(code, bytes[..3 * groups]) + EncodeBy(code, bytes[3 * groups..])
  {
    if groups == 0 {
      assert bytes[0..] == bytes;
    } else {
      CutsBy(code, bytes[3..], groups - 1);
      var head := bytes[..3 * groups];
      assert head[..3] == bytes[..3];
      assert head[3..] == bytes[3..][..3 * (groups - 1)];
      assert bytes[3 * groups..] == bytes[3..][3 * (groups - 1)..];
      assert EncodeBy(code, head) == code(bytes[..3]) + EncodeBy(code, head[3..]);
    }
  }

  lemma {:induction false} OnlyCodeCharacters(code: seq<Byte> -> string, bytes: seq<Byte>, c: char)
    requires forall group :: c !in code(group)
    ensures c !in EncodeBy(code, bytes)
  {
    if bytes != [] {
      OnlyCodeCharacters(code, bytes[Min(3, |bytes|)..], c);
    }
  }

  /** The bytes of four characters, the last two of which may be padding only if `last`. */
  function DecodeQuad(q: string, last: bool): Option<seq<Byte>>
    requires |q| == 4
  {
    var v0, v1 := Value(q[0]), Value(q[1]);
    if v0.None? || v1.None? then None else
      var a := v0.value * 4 + v1.value / 16;
      if last && q[2] == '=' && q[3] == '=' then Some([a])
      else
        var v2 := Value(q[2]);
        if v2.None? then None else
          var b := (v1.value % 16) * 16 + v2.value / 4;
          if last && q[3] == '=' then Some([a, b])
          else
            var v3 := Value(q[3]);
            if v3.None? then None else Some([a, b, (v2.value % 4) * 64 + v3.value])
  }

  function Decode64(text: string): Option<seq<Byte>> {
    if text == "" then Some([])
    else if |text| < 4 then None
    else
      var head := DecodeQuad(text[..4], |text| == 4);
      var tail := Decode64(text[4..]);
      if head.None? || tail.None? then None else Some(head.value + tail.value)
  }

  /** The sextets of three bytes put together again. */
  lemma SextetsJoin(a: Byte, b: Byte, c: Byte)
    ensures (a / 4) * 4 + ((a % 4) * 16 + b / 16) / 16 == a
    ensures (((a % 4) * 16 + b / 16) % 16) * 16 + ((b % 16) * 4 + c / 64) / 4 == b
    ensures (((b % 16) * 4 + c / 64) % 4) * 64 + c % 64 == c
  {
  }

  lemma QuadDecodes(a: Byte, b: Byte, c: Byte, last: bool)
    ensures DecodeQuad(Quad(a, b, c), last) == Some([a, b, c])
  {
    ValueOfLetter(a / 4);
    ValueOfLetter((a % 4) * 16 + b / 16);
    ValueOfLetter((b % 16) * 4 + c / 64);
    ValueOfLetter(c % 64);
    SextetsJoin(a, b, c);
  }

  lemma PaddedOnceDecodes(a: Byte, b: Byte)
    ensures DecodeQuad(Quad(a, b, 0)[..3] + "=", true) == Some([a, b])
  {
    ValueOfLetter(a / 4);
    ValueOfLetter((a % 4) * 16 + b / 16);
    ValueOfLetter((b % 16) * 4);
  }

  lemma PaddedTwiceDecodes(a: Byte)
    ensures DecodeQuad(Quad(a, 0, 0)[..2] + "==", true) == Some([a])
  {
    ValueOfLetter(a / 4);
    ValueOfLetter((a % 4) * 16);
  }

  lemma GroupDecodes(group: seq<Byte>, last: bool)
    requires 1 <= |group| <= 3 && (|group| < 3 ==> last)
    ensures DecodeQuad(EncodeGroup(group), last) == Some(group)
  {
    if |group| == 1 {
      PaddedTwiceDecodes(group[0]);
      assert group == [group[0]];
    } else if |group| == 2 {
      PaddedOnceDecodes(group[0], group[1]);
      assert group == [group[0], group[1]];
    } else {
      QuadDecodes(group[0], group[1], group[2], last);
      assert group == [group[0], group[1], group[2]];
    }
  }

  lemma DecodeStep(quad: string, rest: string, head: seq<Byte>, tail: seq<Byte>)
    requires |quad| == 4 && DecodeQuad(quad, rest == "") == Some(head)
    requires Decode64(rest) == Some(tail)
    ensures Decode64(quad + rest) == Some(head + tail)
  {
    assert (quad + rest)[..4] == quad && (quad + rest)[4..] == rest;
  }

  lemma FirstGroupDecodes(bytes: seq<Byte>, n: nat)
    requires bytes != [] && n == Min(3, |bytes|)
    ensures Encode64(bytes) == EncodeGroup(bytes[..n]) + Encode64(bytes[n..])
    ensures DecodeQuad(EncodeGroup(bytes[..n]), Encode64(bytes[n..]) == "") == Some(bytes[..n])
  {
    GroupDecodes(bytes[..n], Encode64(bytes[n..]) == "");
  }

  lemma {:induction false} DecodeInvertsEncode(bytes: seq<Byte>)
    ensures Decode64(Encode64(bytes)) == Some(bytes)
  {
    if bytes == [] {
    } else {
      var n := Min(3, |bytes|);
      FirstGroupDecodes(bytes, n);
      DecodeInvertsEncode(bytes[n..]);
      DecodeStep(EncodeGroup(bytes[..n]), Encode64(bytes[n..]), bytes[..n], bytes[n..]);
      assert bytes[..n] + bytes[n..] == bytes;
    }
  }

  lemma {:induction false} DecodableLength(text: string)
    requires Decode64(text).Some?
    ensures |text| % 4 == 0
  {
    if text != "" {
      DecodableTail(text);
      DecodableLength(text[4..]);
      assert |text| == 4 + |text[4..]|;
    }
  }

  lemma DecodableTail(text: string)
    requires Decode64(text).Some? && text != ""
    ensures |text| >= 4 && Decode64(text[4..]).Some?
  {
  }

  // ----- The code is that of RFC 4648 -----

  const UPPER := "ABCDEFGHIJKLMNOPQRSTUVWXYZ"
  const LOWER := "abcdefghijklmnopqrstuvwxyz"
  const DIGITS := "0123456789"

  /** The characters of table 1 in section 4. */
  const ALPHABET := UPPER + LOWER + DIGITS + "+/"

  lemma LettersAreTheAlphabet(v: int)
    requires 0 <= v < 64
    ensures |ALPHABET| == 64 && Letter(v) == ALPHABET[v]
  {
    assert |UPPER| == 26 && |LOWER| == 26 && |DIGITS| == 10;
    if v < 26 {
      UpperRun(v);
    } else if v < 52 {
      LowerRun(v - 26);
    } else if v < 62 {
      DigitRun(v - 52);
    }
  }

  lemma UpperRun(v: int)
    requires 0 <= v < 26
    ensures UPPER[v] == 'A' + v as char
  {
  }

  lemma LowerRun(v: int)
    requires 0 <= v < 26
    ensures LOWER[v] == 'a' + v as char
  {
  }

  lemma DigitRun(v: int)
    requires 0 <= v < 10
    ensures DIGITS[v] == '0' + v as char
  {
  }

  lemma FirstTwoSixes(q: int, r: int, low: int)
    requires 0 <= q < 64 && 0 <= r < 64 && 0 <= low < 4096
    ensures var bits := 4096 * (64 * q + r) + low;
            bits / 262144 == q && (bits / 4096) % 64 == r
  {
    var bits := 4096 * (64 * q + r) + low;
    assert bits == 262144 * q + (4096 * r + low) && 0 <= 4096 * r + low < 262144;
    assert bits / 4096 == 64 * q + r;
  }

  lemma LastTwoSixes(high: int, q: int, r: int)
    requires 0 <= high && 0 <= q < 64 && 0 <= r < 64
    ensures var bits := 4096 * high + (64 * q + r);
            (bits / 64) % 64 == q && bits % 64 == r
  {
    var bits := 4096 * high + (64 * q + r);
    assert bits == 64 * (64 * high + q) + r;
    assert bits / 64 == 64 * high + q;
  }

  lemma BitsOf(a: int, b: int, d: int)
    requires 0 <= a < 256 && 0 <= b < 256 && 0 <= d < 256
    ensures var bits := a * 65536 + b * 256 + d;
            && bits / 262144 == a / 4 && (bits / 4096) % 64 == (a % 4) * 16 + b / 16
            && (bits / 64) % 64 == (b % 16) * 4 + d / 64 && bits % 64 == d % 64
  {
    var one, two, three, four := a / 4, (a % 4) * 16 + b / 16, (b % 16) * 4 + d / 64, d % 64;
    assert a * 65536 + b * 256 + d == 4096 * (64 * one + two) + (64 * three + four);
    FirstTwoSixes(one, two, 64 * three + four);
    LastTwoSixes(64 * one + two, three, four);
  }

  /** 24 bits as four characters, six bits each, from the left. */
  function Sixes(bits: nat): (text: string)
    requires bits < 0x100_0000
    ensures |text| == 4
  {
    assert |UPPER| == 26 && |LOWER| == 26 && |DIGITS| == 10;
    [ALPHABET[bits / 262144], ALPHABET[(bits / 4096) % 64], ALPHABET[(bits / 64) % 64], ALPHABET[bits % 64]]
  }

  /** Three bytes as a number, the first one highest. */
  function Number(a: Byte, b: Byte, d: Byte): (bits: nat)
    ensures bits < 0x100_0000
  {
    a as int * 65536 + b as int * 256 + d as int
  }

  lemma LettersOfSixes(bits: nat, one: int, two: int, three: int, four: int)
    requires bits < 0x100_0000 && 0 <= one < 64 && 0 <= two < 64 && 0 <= three < 64 && 0 <= four < 64
    requires bits / 262144 == one && (bits / 4096) % 64 == two && (bits / 64) % 64 == three && bits % 64 == four
    ensures [Letter(one), Letter(two), Letter(three), Letter(four)] == Sixes(bits)
  {
    LettersAreTheAlphabet(one);
    LettersAreTheAlphabet(two);
    LettersAreTheAlphabet(three);
    LettersAreTheAlphabet(four);
  }

  lemma QuadIsSixes(a: Byte, b: Byte, d: Byte)
    ensures Quad(a, b, d) == Sixes(Number(a, b, d))
  {
    BitsOf(a, b, d);
    LettersOfSixes(Number(a, b, d), a / 4, (a % 4) * 16 + b / 16, (b % 16) * 4 + d / 64, d % 64);
  }

  /** Missing bytes count as zero, and the characters that would come from them alone are padding. */
  lemma GroupIsBase64(group: seq<Byte>)
    ensures |group| == 1 ==> EncodeGroup(group) == Sixes(Number(group[0], 0, 0))[..2] + "=="
    ensures |group| == 2 ==> EncodeGroup(group) == Sixes(Number(group[0], group[1], 0))[..3] + "="
    ensures |group| == 3 ==> EncodeGroup(group) == Sixes(Number(group[0], group[1], group[2]))
  {
    if |group| == 1 {
      QuadIsSixes(group[0], 0, 0);
    } else if |group| == 2 {
      QuadIsSixes(group[0], group[1], 0);
    } else if |group| == 3 {
      QuadIsSixes(group[0], group[1], group[2]);
    }
  }

  /** Three bytes at a time, the rest last. */
  lemma EncodesByGroups(group: seq<Byte>, rest: seq<Byte>)
    requires 1 <= |group| <= 3 && (|group| < 3 ==> rest == [])
    ensures Encode64([]) == "" && Encode64(group + rest) == EncodeGroup(group) + Encode64(rest)
  {
    var all, n := group + rest, Min(3, |group + rest|);
    assert all[..n] == group && all[n..] == rest;
  }

  // ----- Chunks -----

  function Chunks(text: string, size: nat): seq<string>
    requires size > 0
  {
    if text == "" then []
    else if |text| <= size then [text]
    else [text[..size]] + Chunks(text[size..], size)
  }

  /** Every chunk is decoded alone and the results are concatenated. */
  function DecodeEach(chunks: seq<string>): Option<seq<Byte>> {
    if chunks == [] then Some([]) else
      var head, tail := Decode64(chunks[0]), DecodeEach(chunks[1..]);
      if head.None? || tail.None? then None else Some(head.value + tail.value)
  }

  lemma {:induction false} ChunksWithin(text: string, size: nat)
    requires size > 0
    ensures forall i :: 0 <= i < |Chunks(text, size)| ==> 0 < |Chunks(text, size)[i]| <= size
    ensures text != "" ==> Chunks(text, size) != []
  {
    if |text| > size {
      ChunksWithin(text[size..], size);
    }
  }

  lemma SingleChunk(bytes: seq<Byte>, size: nat)
    requires 0 < |Encode64(bytes)| <= size
    ensures DecodeEach(Chunks(Encode64(bytes), size)) == Some(bytes)
  {
    DecodeInvertsEncode(bytes);
    var chunks := Chunks(Encode64(bytes), size);
    assert chunks == [Encode64(bytes)] && DecodeEach(chunks[1..]) == Some([]);
    assert bytes + [] == bytes;
  }

  lemma EncodesToNothing(bytes: seq<Byte>)
    requires Encode64(bytes) == ""
    ensures bytes == []
  {
    LengthBy(EncodeGroup, bytes);
  }

  lemma TakeAndDrop(text: string, a: string, b: string, n: nat)
    requires text == a + b && |a| == n
    ensures |text| >= n && text[..n] == a && text[n..] == b
  {
  }

  lemma GroupsFit(length: nat, groups: nat)
    requires 4 * ((length + 2) / 3) > 4 * groups
    ensures 3 * groups < length
  {
  }

  lemma WholeGroupsLength(bytes: seq<Byte>, groups: nat)
    requires |bytes| == 3 * groups
    ensures |Encode64(bytes)| == 4 * groups
  {
    LengthBy(EncodeGroup, bytes);
    assert (3 * groups + 2) / 3 == groups;
  }

  lemma LongTextHasGroups(bytes: seq<Byte>, groups: nat)
    requires |Encode64(bytes)| > 4 * groups
    ensures 3 * groups < |bytes|
  {
    LengthBy(EncodeGroup, bytes);
    GroupsFit(|bytes|, groups);
  }

  /** A chunk of 4 * groups characters is the encoding of the first 3 * groups bytes, so it has no padding. */
  lemma FirstChunkIsWhole(bytes: seq<Byte>, groups: nat)
    requires |Encode64(bytes)| > 4 * groups
    ensures 3 * groups < |bytes| && |Encode64(bytes[..3 * groups])| == 4 * groups
    ensures Encode64(bytes) == Encode64(bytes[..3 * groups]) + Encode64(bytes[3 * groups..])
  {
    LongTextHasGroups(bytes, groups);
    CutsBy(EncodeGroup, bytes, groups);
    WholeGroupsLength(bytes[..3 * groups], groups);
  }

  lemma DecodeFirstChunk(text: string, first: string, rest: string, head: seq<Byte>, tail: seq<Byte>)
    requires first != "" && rest != "" && text == first + rest
    requires Decode64(first) == Some(head) && DecodeEach(Chunks(rest, |first|)) == Some(tail)
    ensures DecodeEach(Chunks(text, |first|)) == Some(head + tail)
  {
    TakeAndDrop(text, first, rest, |first|);
    var chunks := Chunks(text, |first|);
    assert chunks[0] == first && chunks[1..] == Chunks(rest, |first|);
  }

  /** The encoding is a first chunk, which decodes by itself, and the encoding of the other bytes. */
  lemma FirstChunkDecodes(bytes: seq<Byte>, groups: nat) returns (first: string, rest: string)
    requires |Encode64(bytes)| > 4 * groups
    ensures Encode64(bytes) == first + rest && |first| == 4 * groups && rest != ""
    ensures 3 * groups < |bytes|
    ensures Decode64(first) == Some(bytes[..3 * groups]) && rest == Encode64(bytes[3 * groups..])
  {
    FirstChunkIsWhole(bytes, groups);
    DecodeInvertsEncode(bytes[..3 * groups]);
    first, rest := Encode64(bytes[..3 * groups]), Encode64(bytes[3 * groups..]);
  }

  lemma {:induction false} AlignedChunksRoundTrip(bytes: seq<Byte>, groups: nat)
    requires groups > 0
    ensures DecodeEach(Chunks(Encode64(bytes), 4 * groups)) == Some(bytes)
    decreases |bytes|
  {
    if Encode64(bytes) == "" {
      EncodesToNothing(bytes);
    } else if |Encode64(bytes)| <= 4 * groups {
      SingleChunk(bytes, 4 * groups);
    } else {
      var first, rest := FirstChunkDecodes(bytes, groups);
      var head, tail := bytes[..3 * groups], bytes[3 * groups..];
      AlignedChunksRoundTrip(tail, groups);
      DecodeFirstChunk(Encode64(bytes), first, rest, head, tail);
      assert head + tail == bytes;
    }
  }

  lemma MisalignedChunksFail(text: string, size: nat)
    requires 0 < size < |text| && size % 4 != 0
    ensures DecodeEach(Chunks(text, size)) == None
  {
    var chunks := Chunks(text, size);
    assert chunks != [] && chunks[0] == text[..size];
    if Decode64(chunks[0]).Some? {
      DecodableLength(chunks[0]);
      assert false;
    }
  }

  /** Main result: decoding chunk by chunk gives the original back exactly when the chunk size is a multiple of four or
      there is at most one chunk. */
  lemma ChunkedRoundTripIff(bytes: seq<Byte>, size: nat)
    requires size > 0
    ensures DecodeEach(Chunks(Encode64(bytes), size)) == Some(bytes)
       <==> size % 4 == 0 || |Encode64(bytes)| <= size
  {
    if size % 4 == 0 {
      AlignedChunksRoundTrip(bytes, size / 4);
    } else if |Encode64(bytes)| > size {
      MisalignedChunksFail(Encode64(bytes), size);
    } else if Encode64(bytes) != "" {
      SingleChunk(bytes, size);
    } else {
      EncodesToNothing(bytes);
    }
  }

  // ----- The transfer -----

  const MAX_COMMAND_SIZE: nat := 128 * 1024
  const CHUNK_SIZE: nat := 64 * 1024

  /** `base64 -d` over what `echo` prints: the line feed after a plain `echo` is not part of the encoding. */
  function ShellDecode(line: string): Option<seq<Byte>> {
    if line != "" && line[|line| - 1] == '\n' then Decode64(line[..|line| - 1]) else Decode64(line)
  }

  lemma NoLineFeed(bytes: seq<Byte>)
    ensures '\n' !in Encode64(bytes)
  {
    OnlyCodeCharacters(EncodeGroup, bytes, '\n');
  }

  lemma {:induction false} ChunksHaveNoLineFeed(text: string, size: nat)
    requires size > 0 && '\n' !in text
    ensures forall i :: 0 <= i < |Chunks(text, size)| ==> '\n' !in Chunks(text, size)[i]
  {
    if |text| > size {
      ChunksHaveNoLineFeed(text[size..], size);
    }
  }

  lemma {:induction false} DecodeEachAppend(chunks: seq<string>, last: string)
    ensures DecodeEach(chunks + [last])
         == if DecodeEach(chunks).None? || Decode64(last).None? then None
            else Some(DecodeEach(chunks).value + Decode64(last).value)
  {
    if chunks == [] {
      assert chunks + [last] == [last] && [last][1..] == chunks;
      if Decode64(last).Some? {
        assert Decode64(last).value + [] == [] + Decode64(last).value;
      }
    } else {
      assert (chunks + [last])[1..] == chunks[1..] + [last];
      DecodeEachAppend(chunks[1..], last);
      var head, tail, end := Decode64(chunks[0]), DecodeEach(chunks[1..]), Decode64(last);
      if head.Some? && tail.Some? && end.Some? {
        assert head.value + (tail.value + end.value) == head.value + tail.value + end.value;
      }
    }
  }

  lemma WholeFacts(binary: seq<Byte>)
    ensures ShellDecode(Encode64(binary) + "\n") == Some(binary)
  {
    DecodeInvertsEncode(binary);
    var line := Encode64(binary) + "\n";
    assert line[..|line| - 1] == Encode64(binary);
  }

  /** The commands of a transfer: the whole file at once, or piece by piece. */
  datatype Command = Whole(text: string) | Create(text: string) | Append(text: string) | MakeExecutable

  /** What the remote shell is given. */
  function Text(command: Command, path: string): string {
    match command
    case Whole(text) =>
      "echo '" + text + "' | base64 -d > " + path + " && chmod +x " + path + " && echo 'Transfer completed'"
    case Create(text) => "echo -n '" + text + "' | base64 -d > " + path
    case Append(text) => "echo -n '" + text + "' | base64 -d >> " + path
    case MakeExecutable => "chmod +x " + path
  }

  /** The remote file; no content means that a decoder rejected its input. */
  datatype Remote = Remote(content: Option<seq<Byte>>, executable: bool)

  const NEW := Remote(Some([]), false)

  function Then(first: Option<seq<Byte>>, second: Option<seq<Byte>>): Option<seq<Byte>> {
    if first.None? || second.None? then None else Some(first.value + second.value)
  }

  /** What a command does; `&&` goes on only after success. */
  function Effect(r: Remote, command: Command): Remote {
    match command
    case Whole(text) => var content := ShellDecode(text + "\n"); Remote(content, r.executable || content.Some?)
    case Create(text) => r.(content := ShellDecode(text))
    case Append(text) => r.(content := Then(r.content, ShellDecode(text)))
    case MakeExecutable => r.(executable := true)
  }

  function Effects(r: Remote, commands: seq<Command>): Remote {
    if commands == [] then r else Effect(Effects(r, commands[..|commands| - 1]), commands[|commands| - 1])
  }

  function ChunkCommands(chunks: seq<string>): seq<Command>
    requires chunks != []
  {
    [Create(chunks[0])] + seq(|chunks| - 1, i requires 0 <= i < |chunks| - 1 => Append(chunks[i + 1]))
  }

  function Commands(encoded: string): seq<Command> {
    if |encoded| <= MAX_COMMAND_SIZE then [Whole(encoded)]
    else ChunkCommands(Chunks(encoded, CHUNK_SIZE)) + [MakeExecutable]
  }

  /** What the chunked transfer relies on. */
  lemma ChunkFacts(binary: seq<Byte>, size: nat)
    requires size > 0 && size % 4 == 0 && |Encode64(binary)| > size
    ensures var chunks := Chunks(Encode64(binary), size);
            && DecodeEach(chunks) == Some(binary)
            && chunks != []
            && (forall i :: 0 <= i < |chunks| ==> |chunks[i]| <= size && '\n' !in chunks[i])
  {
    ChunkedRoundTripIff(binary, size);
    ChunksWithin(Encode64(binary), size);
    NoLineFeed(binary);
    ChunksHaveNoLineFeed(Encode64(binary), size);
  }

  lemma EffectsAppend(r: Remote, commands: seq<Command>, last: Command)
    ensures Effects(r, commands + [last]) == Effect(Effects(r, commands), last)
  {
    assert (commands + [last])[..|commands|] == commands;
  }

  lemma ShellDecodesText(text: string)
    requires '\n' !in text
    ensures ShellDecode(text) == Decode64(text)
  {
    if text != "" {
      assert text[|text| - 1] in text;
    }
  }

  lemma DecodeOne(chunk: string)
    ensures DecodeEach([chunk]) == Decode64(chunk)
  {
    var rest := [chunk][1..];
    assert rest == [] && DecodeEach(rest) == Some([]);
    if Decode64(chunk).Some? {
      assert Decode64(chunk).value + [] == Decode64(chunk).value;
    }
  }

  lemma FirstChunkArrives(r: Remote, chunk: string)
    requires '\n' !in chunk
    ensures Effects(r, ChunkCommands([chunk])) == Remote(DecodeEach([chunk]), r.executable)
  {
    var none: seq<Command> := [];
    assert ChunkCommands([chunk]) == none + [Create(chunk)];
    EffectsAppend(r, none, Create(chunk));
    ShellDecodesText(chunk);
    DecodeOne(chunk);
  }

  lemma NextChunkArrives(r: Remote, chunks: seq<string>, last: string)
    requires chunks != [] && '\n' !in last
    requires Effects(r, ChunkCommands(chunks)) == Remote(DecodeEach(chunks), r.executable)
    ensures Effects(r, ChunkCommands(chunks + [last])) == Remote(DecodeEach(chunks + [last]), r.executable)
  {
    OneMoreChunk(chunks, last);
    EffectsAppend(r, ChunkCommands(chunks), Append(last));
    ShellDecodesText(last);
    DecodeEachAppend(chunks, last);
  }

  lemma OneMoreChunk(chunks: seq<string>, last: string)
    requires chunks != []
    ensures ChunkCommands(chunks + [last]) == ChunkCommands(chunks) + [Append(last)]
  {
  }

  lemma {:induction false} ChunksArrive(r: Remote, chunks: seq<string>)
    requires chunks != [] && forall i :: 0 <= i < |chunks| ==> '\n' !in chunks[i]
    ensures Effects(r, ChunkCommands(chunks)) == Remote(DecodeEach(chunks), r.executable)
  {
    var n := |chunks| - 1;
    if n == 0 {
      FirstChunkArrives(r, chunks[0]);
      assert chunks == [chunks[0]];
    } else {
      ChunksArrive(r, chunks[..n]);
      NextChunkArrives(r, chunks[..n], chunks[n]);
      assert chunks == chunks[..n] + [chunks[n]];
    }
  }

  /** The commands of a transfer, one after the other, make the remote file, whatever it was, the binary and let
      it be executed. */
  lemma CommandsArrive(r: Remote, binary: seq<Byte>)
    ensures Effects(r, Commands(Encode64(binary))) == Remote(Some(binary), true)
  {
    var encoded := Encode64(binary);
    if |encoded| <= MAX_COMMAND_SIZE {
      WholeFacts(binary);
      EffectsAppend(r, [], Whole(encoded));
      assert [] + [Whole(encoded)] == [Whole(encoded)];
    } else {
      ChunkFacts(binary, CHUNK_SIZE);
      ChunksArrive(r, Chunks(encoded, CHUNK_SIZE));
      EffectsAppend(r, ChunkCommands(Chunks(encoded, CHUNK_SIZE)), MakeExecutable);
    }
  }

  // ----- The size of the commands -----

  /** No command is longer than the limit. */
  ghost predicate AllFit(encoded: string, path: string) {
    forall i :: 0 <= i < |Commands(encoded)| ==> |Text(Commands(encoded)[i], path)| <= MAX_COMMAND_SIZE
  }

  lemma TextLengths(command: Command, path: string)
    ensures |Text(command, path)|
         == match command
            case Whole(text) => |text| + 2 * |path| + 64
            case Create(text) => |text| + |path| + 25
            case Append(text) => |text| + |path| + 26
            case MakeExecutable => |path| + 9
  {
  }

  lemma SecondChunkIsFull(encoded: string)
    requires |encoded| > MAX_COMMAND_SIZE
    ensures |Chunks(encoded, CHUNK_SIZE)| > 1 && |Chunks(encoded, CHUNK_SIZE)[1]| == CHUNK_SIZE
  {
    var rest := encoded[CHUNK_SIZE..];
    assert Chunks(encoded, CHUNK_SIZE)[1..] == Chunks(rest, CHUNK_SIZE);
    assert Chunks(rest, CHUNK_SIZE)[0] == rest[..CHUNK_SIZE];
    assert Chunks(encoded, CHUNK_SIZE)[1] == Chunks(rest, CHUNK_SIZE)[0];
  }

  lemma ChunksFitIff(encoded: string, path: string)
    requires |encoded| > MAX_COMMAND_SIZE
    ensures AllFit(encoded, path) <==> |path| + 26 <= MAX_COMMAND_SIZE - CHUNK_SIZE
  {
    var chunks, commands := Chunks(encoded, CHUNK_SIZE), Commands(encoded);
    SecondChunkIsFull(encoded);
    ChunksWithin(encoded, CHUNK_SIZE);
    assert commands[1] == Append(chunks[1]);
    TextLengths(commands[1], path);
    if |path| + 26 <= MAX_COMMAND_SIZE - CHUNK_SIZE {
      forall i | 0 <= i < |commands| ensures |Text(commands[i], path)| <= MAX_COMMAND_SIZE {
        TextLengths(commands[i], path);
        assert commands[i] == if i == 0 then Create(chunks[0])
                              else if i < |chunks| then Append(chunks[i]) else MakeExecutable;
      }
    }
  }

  /** Main result: the branch is chosen by the length of the encoded text alone, so a text sent whole may make a command
      beyond the limit; for a path as short as the source's all commands fit exactly if the text is chunked or leaves
      room for the words around it. */
  lemma AllFitIff(encoded: string, path: string)
    requires |path| + 26 <= 64 * 1024
    ensures AllFit(encoded, path) <==> |encoded| > 128 * 1024 || |encoded| <= 128 * 1024 - 64 - 2 * |path|
  {
    if |encoded| > MAX_COMMAND_SIZE {
      ChunksFitIff(encoded, path);
    } else {
      assert Commands(encoded)[0] == Whole(encoded);
      TextLengths(Whole(encoded), path);
    }
  }
}
