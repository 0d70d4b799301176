/** The remote shell: what a command line does, read from its characters alone, and the upload over such lines
    (crates/client/src/transport/ssh.rs). */
module RemoteShell {
  import opened Common
  import opened Framing
  import opened Upload

  /** A word of a command line; in quotes it may hold blanks. */
  datatype Word = Bare(s: string) | Quoted(s: string)

  /** The files by path; one that is missing reads as empty. */
  type Files = map<string, Remote>

  function At(files: Files, path: string): Remote {
    if path in files then files[path] else NEW
  }

  // ----- From characters to words -----

  /** The number of characters before the first `stop`. */
  function Span(line: string, stop: char): (n: nat)
    ensures n <= |line| && stop !in line[..n]
    ensures n < |line| ==> line[n] == stop
  {
    if line == "" || line[0] == stop then 0 else
      var n := 1 + Span(line[1..], stop);
      assert line[..n] == [line[0]] + line[1..][..n - 1];
      n
  }

  function Prepend(word: Word, words: Option<seq<Word>>): Option<seq<Word>> {
    if words.None? then None else Some([word] + words.value)
  }

  /** Words end at a blank; an open quote, or a quote inside a word, is beyond this reading. */
  function Words(line: string): Option<seq<Word>>
    decreases |line|
  {
    if line == "" then Some([])
    else if line[0] == ' ' then Words(line[1..])
    else if line[0] == '\'' then
      var n := Span(line[1..], '\'');
      if n + 1 == |line| || (n + 2 < |line| && line[n + 2] != ' ') then None
      else Prepend(Quoted(line[1..n + 1]), Words(line[n + 2..]))
    else
      var n := Span(line, ' ');
      if '\'' in line[..n] then None else Prepend(Bare(line[..n]), Words(line[n..]))
  }

  // ----- From words to effects -----

  /** What comes after a command: nothing, or another one that runs only after success. */
  function Next(words: seq<Word>, files: Files, success: bool): Option<Files>
    decreases |words|, 0
  {
    if words == [] then Some(files)
    else if words[0] != Bare("&&") then None
    else if success then Run(words[1..], files)
    else Some(files)
  }

  /** `| base64 -d` and a redirection to a file */
  predicate DecodesTo(words: seq<Word>) {
    && |words| >= 5 && words[..3] == [Bare("|"), Bare("base64"), Bare("-d")]
    && (words[3] == Bare(">") || words[3] == Bare(">>")) && words[4].Bare?
  }

  /** `echo` ends its line unless told not to; `>` replaces the file and `>>` appends to it; `chmod` needs the file. */
  function Run(words: seq<Word>, files: Files): Option<Files>
    decreases |words|, 1
  {
    if words == [] then Some(files)
    else if |words| >= 3 && words[..2] == [Bare("chmod"), Bare("+x")] && words[2].Bare? then
      var path := words[2].s;
      if path in files then Next(words[3..], files[path := files[path].(executable := true)], true)
      else Next(words[3..], files, false)
    else if words[0] == Bare("echo") then
      var at := if |words| > 1 && words[1] == Bare("-n") then 2 else 1;
      if |words| <= at || !words[at].Quoted? then None else
        var printed := words[at].s + (if at == 2 then "" else "\n");
        var rest := words[at + 1..];
        if !DecodesTo(rest) then Next(rest, files, true) else
          var path, decoded := rest[4].s, ShellDecode(printed);
          var content := if rest[3] == Bare(">") then decoded else Then(At(files, path).content, decoded);
          Next(rest[5..], files[path := At(files, path).(content := content)], decoded.Some?)
    else None
  }

  /** What the shell makes of one command line, if this reading covers it. */
  function Execute(line: string, files: Files): Option<Files> {
    var words := Words(line);
    if words.None? then None else Run(words.value, files)
  }

  function ExecuteAll(lines: seq<string>, files: Files): Option<Files> {
    if lines == [] then Some(files) else
      var before := ExecuteAll(lines[..|lines| - 1], files);
      if before.None? then None else Execute(lines[|lines| - 1], before.value)
  }

  // ----- Writing words and reading them back -----

  predicate Writable(word: Word) {
    match word
    case Bare(s) => s != "" && ' ' !in s && '\'' !in s
    case Quoted(s) => '\'' !in s
  }

  function Show(word: Word): string {
    match word
    case Bare(s) => s
    case Quoted(s) => "'" + s + "'"
  }

  function Line(words: seq<Word>): string {
    if words == [] then "" else if |words| == 1 then Show(words[0]) else Show(words[0]) + (" " + Line(words[1..]))
  }

  lemma {:induction false} SpanIs(a: string, rest: string, stop: char)
    requires stop !in a && (rest == "" || rest[0] == stop)
    ensures Span(a + rest, stop) == |a|
  {
    if a == "" {
      assert a + rest == rest;
    } else {
      assert (a + rest)[1..] == a[1..] + rest && (a + rest)[0] in a;
      SpanIs(a[1..], rest, stop);
    }
  }

  lemma BareFirst(s: string, rest: string)
    requires Writable(Bare(s)) && (rest == "" || rest[0] == ' ')
    ensures Words(s + rest) == Prepend(Bare(s), Words(rest))
  {
    var line := s + rest;
    SpanIs(s, rest, ' ');
    TakeAndDrop(line, s, rest, |s|);
    assert line[0] == s[0] && s[0] in s;
  }

  lemma QuotedParts(s: string, rest: string)
    ensures var line := "'" + s + "'" + rest;
            && |line| == |s| + 2 + |rest| && line[0] == '\''
            && line[1..] == s + ("'" + rest) && line[1..|s| + 1] == s && line[|s| + 2..] == rest
  {
    var line := "'" + s + "'" + rest;
    assert line == "'" + (s + ("'" + rest));
    TakeAndDrop(line, "'" + s + "'", rest, |s| + 2);
  }

  lemma QuotedReads(line: string, n: nat)
    requires line != "" && line[0] == '\'' && Span(line[1..], '\'') == n
    requires n + 1 < |line| && (n + 2 < |line| ==> line[n + 2] == ' ')
    ensures Words(line) == Prepend(Quoted(line[1..n + 1]), Words(line[n + 2..]))
  {
  }

  lemma QuotedFirst(s: string, rest: string)
    requires '\'' !in s && (rest == "" || rest[0] == ' ')
    ensures Words("'" + s + "'" + rest) == Prepend(Quoted(s), Words(rest))
  {
    var line := "'" + s + "'" + rest;
    QuotedParts(s, rest);
    SpanIs(s, "'" + rest, '\'');
    assert rest != "" ==> line[|s| + 2] == line[|s| + 2..][0];
    QuotedReads(line, |s|);
  }

  /** The reading takes off one word that was written. */
  lemma WordFirst(word: Word, rest: string)
    requires Writable(word) && (rest == "" || rest[0] == ' ')
    ensures Words(Show(word) + rest) == Prepend(word, Words(rest))
  {
    match word
    case Bare(s) => BareFirst(s, rest);
    case Quoted(s) => QuotedFirst(s, rest);
  }

  /** Main result: reading what was written gives the words back. */
  lemma {:induction false} WordsOfLine(words: seq<Word>)
    requires forall i :: 0 <= i < |words| ==> Writable(words[i])
    ensures Words(Line(words)) == Some(words)
  {
    if words == [] {
    } else if |words| == 1 {
      WordFirst(words[0], "");
      assert Show(words[0]) + "" == Show(words[0]);
      assert words == [words[0]] + [];
    } else {
      var rest := " " + Line(words[1..]);
      WordFirst(words[0], rest);
      assert rest[1..] == Line(words[1..]);
      WordsOfLine(words[1..]);
      assert words == [words[0]] + words[1..];
    }
  }

  // ----- The commands of the upload, as words -----

  function Echo(text: string, ends: bool, to: string, path: string): seq<Word> {
    (if ends then [Bare("echo")] else [Bare("echo"), Bare("-n")])
    + [Quoted(text), Bare("|"), Bare("base64"), Bare("-d"), Bare(to), Bare(path)]
  }

  function Chmod(path: string): seq<Word> {
    [Bare("chmod"), Bare("+x"), Bare(path)]
  }

  const DONE := [Bare("echo"), Quoted("Transfer completed")]

  function WordsOf(command: Command, path: string): seq<Word> {
    match command
    case Whole(text) => Echo(text, true, ">", path) + [Bare("&&")] + Chmod(path) + [Bare("&&")] + DONE
    case Create(text) => Echo(text, false, ">", path)
    case Append(text) => Echo(text, false, ">>", path)
    case MakeExecutable => Chmod(path)
  }

  lemma LineGrows(word: Word, rest: seq<Word>)
    requires rest != []
    ensures Line([word] + rest) == Show(word) + (" " + Line(rest))
  {
    assert ([word] + rest)[1..] == rest;
  }

  lemma {:induction false} LineJoins(a: seq<Word>, b: seq<Word>)
    requires a != [] && b != []
    ensures Line(a + b) == Line(a) + (" " + Line(b))
  {
    if |a| == 1 {
      assert a == [a[0]];
      LineGrows(a[0], b);
    } else {
      assert a == [a[0]] + a[1..] && a + b == [a[0]] + (a[1..] + b);
      LineJoins(a[1..], b);
      LineGrows(a[0], a[1..] + b);
      LineGrows(a[0], a[1..]);
      Regroup(Show(a[0]), " ", Line(a[1..]), " " + Line(b));
    }
  }

  // Strings put together in another way; the literals are compared on their own, without what surrounds them.

  lemma Regroup(a: string, b: string, c: string, d: string)
    ensures a + (b + (c + d)) == a + (b + c) + d
  {
  }

  lemma Hoist(a: string, b: string, ab: string, c: string, d: string, e: string)
    requires a + b == ab
    ensures a + (b + c + d + e) == ab + c + d + e
  {
  }

  lemma Settle(a: string, b: string, c: string, d: string, e: string, cde: string, path: string)
    requires c + d + e == cde
    ensures a + b + (c + d + e + path) == a + b + cde + path
  {
  }

  lemma Quote(a: string, q: string, text: string, aq: string, tail: string)
    requires a + q == aq
    ensures a + (q + text + tail) == aq + text + tail
  {
  }

  lemma Close(q: string, text: string, b: string, qb: string, rest: string)
    requires q + b == qb
    ensures q + text + q + (b + rest) == q + text + (qb + rest)
  {
  }

  lemma Glue(a: string, b: string, rest: string, ab: string)
    requires a + b == ab
    ensures a + (b + rest) == ab + rest
  {
  }

  lemma DecodeLiterals()
    ensures "-d" + " " == "-d " && "base64 " + "-d " == "base64 -d " && "| " + "base64 -d " == "| base64 -d "
    ensures "base64" + " " == "base64 " && "|" + " " == "| "
  {
  }

  lemma QuoteLiterals()
    ensures "'" + " " == "' " && "' " + "| base64 -d " == "' | base64 -d "
  {
  }

  lemma EchoLiterals()
    ensures "echo" + " " == "echo " && "echo " + "'" == "echo '" && "-n" + " " == "-n "
    ensures "-n " + "'" == "-n '" && "echo " + "-n '" == "echo -n '"
  {
  }

  lemma TargetLiterals()
    ensures "' | base64 -d " + ">" + " " == "' | base64 -d > "
    ensures "' | base64 -d " + ">>" + " " == "' | base64 -d >> "
  {
  }

  lemma ChmodLiterals()
    ensures "+x" + " " == "+x " && "chmod" + " " == "chmod " && "chmod " + "+x " == "chmod +x "
    ensures " && " + "chmod +x " == " && chmod +x " && " " + "&&" == " &&" && " &&" + " " == " && "
  {
  }

  lemma DoneLiteral()
    ensures "'" + "Transfer completed" + "'" == "'Transfer completed'"
  {
  }

  lemma EchoDoneLiteral()
    ensures " && echo " + "'Transfer completed'" == " && echo 'Transfer completed'"
    ensures " && " + "echo " == " && echo "
  {
  }

  lemma LineOfDecode(to: string, path: string)
    ensures Line([Bare("|"), Bare("base64"), Bare("-d"), Bare(to), Bare(path)]) == "| base64 -d " + to + " " + path
  {
    var file := [Bare(path)];
    var target := [Bare(to)] + file;
    var flag := [Bare("-d")] + target;
    var decoder := [Bare("base64")] + flag;
    LineGrows(Bare(to), file);
    LineGrows(Bare("-d"), target);
    LineGrows(Bare("base64"), flag);
    LineGrows(Bare("|"), decoder);
    assert [Bare("|")] + decoder == [Bare("|"), Bare("base64"), Bare("-d"), Bare(to), Bare(path)];
    DecodeText(to + (" " + path), to, path);
  }

  lemma DecodeText(target: string, to: string, path: string)
    requires target == to + (" " + path)
    ensures "|" + (" " + ("base64" + (" " + ("-d" + (" " + target))))) == "| base64 -d " + to + " " + path
  {
    DecodeLiterals();
    Glue("-d", " ", target, "-d ");
    Glue("base64", " ", "-d " + target, "base64 ");
    Glue("base64 ", "-d ", target, "base64 -d ");
    Glue("|", " ", "base64 -d " + target, "| ");
    Glue("| ", "base64 -d ", target, "| base64 -d ");
    Regroup("| base64 -d ", to, " ", path);
  }

  lemma LineOfQuoted(text: string, to: string, path: string)
    ensures Line([Quoted(text), Bare("|"), Bare("base64"), Bare("-d"), Bare(to), Bare(path)])
         == "'" + text + ("' | base64 -d " + to + " " + path)
  {
    var decode := [Bare("|"), Bare("base64"), Bare("-d"), Bare(to), Bare(path)];
    var rest := "| base64 -d " + to + " " + path;
    LineOfDecode(to, path);
    LineGrows(Quoted(text), decode);
    assert [Quoted(text)] + decode == [Quoted(text), Bare("|"), Bare("base64"), Bare("-d"), Bare(to), Bare(path)];
    QuoteLiterals();
    Close("'", text, " ", "' ", rest);
    Hoist("' ", "| base64 -d ", "' | base64 -d ", to, " ", path);
  }

  lemma LineOfEcho(text: string, ends: bool, to: string, path: string)
    ensures Line(Echo(text, ends, to, path))
         == (if ends then "echo '" else "echo -n '") + text + ("' | base64 -d " + to + " " + path)
  {
    var quoted := [Quoted(text), Bare("|"), Bare("base64"), Bare("-d"), Bare(to), Bare(path)];
    var tail := "' | base64 -d " + to + " " + path;
    LineOfQuoted(text, to, path);
    if ends {
      LineGrows(Bare("echo"), quoted);
    } else {
      LineGrows(Bare("-n"), quoted);
      LineGrows(Bare("echo"), [Bare("-n")] + quoted);
      assert Echo(text, ends, to, path) == [Bare("echo")] + ([Bare("-n")] + quoted);
    }
    EchoText(text, tail);
  }

  lemma EchoText(text: string, tail: string)
    ensures "echo" + (" " + ("'" + text + tail)) == "echo '" + text + tail
    ensures "echo" + (" " + ("-n" + (" " + ("'" + text + tail)))) == "echo -n '" + text + tail
  {
    EchoLiterals();
    Glue("echo", " ", "'" + text + tail, "echo ");
    Quote("echo ", "'", text, "echo '", tail);
    Glue("-n", " ", "'" + text + tail, "-n ");
    Quote("-n ", "'", text, "-n '", tail);
    Glue("echo", " ", "-n '" + text + tail, "echo ");
    Quote("echo ", "-n '", text, "echo -n '", tail);
  }

  lemma LineOfChmod(path: string)
    ensures Line(Chmod(path)) == "chmod +x " + path
  {
    LineGrows(Bare("+x"), [Bare(path)]);
    LineGrows(Bare("chmod"), [Bare("+x"), Bare(path)]);
    assert Chmod(path) == [Bare("chmod")] + [Bare("+x"), Bare(path)];
    assert [Bare("+x"), Bare(path)] == [Bare("+x")] + [Bare(path)];
    ChmodLiterals();
    Glue("+x", " ", path, "+x ");
    Glue("chmod", " ", "+x " + path, "chmod ");
    Glue("chmod ", "+x ", path, "chmod +x ");
  }

  lemma LineOfAnd(before: seq<Word>, after: seq<Word>)
    requires before != [] && after != []
    ensures Line(before + [Bare("&&")] + after) == Line(before) + " && " + Line(after)
  {
    LineJoins(before + [Bare("&&")], after);
    LineJoins(before, [Bare("&&")]);
    ChmodLiterals();
    AndText(Line(before), " ", "&&", Line(after), " && ");
  }

  lemma AndText(before: string, blank: string, and: string, after: string, all: string)
    requires blank + and + blank == all
    ensures before + (blank + and) + (blank + after) == before + all + after
  {
  }

  lemma LineOfDone()
    ensures Line(DONE) == "echo" + (" " + "'Transfer completed'")
  {
    LineGrows(Bare("echo"), [Quoted("Transfer completed")]);
    DoneLiteral();
  }

  lemma WholeIsLine(text: string, path: string)
    ensures Text(Whole(text), path) == Line(WordsOf(Whole(text), path))
  {
    var echo := Echo(text, true, ">", path);
    LineOfChmod(path);
    LineOfEcho(text, true, ">", path);
    LineOfAnd(echo, Chmod(path));
    LineOfAnd(echo + [Bare("&&")] + Chmod(path), DONE);
    LineOfDone();
    WholeText(text, path);
  }

  lemma WholeText(text: string, path: string)
    ensures "echo '" + text + ("' | base64 -d " + ">" + " " + path) + " && " + ("chmod +x " + path)
            + " && " + ("echo" + (" " + "'Transfer completed'"))
         == "echo '" + text + "' | base64 -d > " + path + " && chmod +x " + path + " && echo 'Transfer completed'"
  {
    TargetLiterals();
    ChmodLiterals();
    EchoLiterals();
    EchoDoneLiteral();
    Settle("echo '", text, "' | base64 -d ", ">", " ", "' | base64 -d > ", path);
    Glue("echo", " ", "'Transfer completed'", "echo ");
    Glue(" && ", "echo ", "'Transfer completed'", " && echo ");
    var written := "echo '" + text + "' | base64 -d > " + path;
    Three(written, " && ", "chmod +x ", " && chmod +x ", path, "echo " + "'Transfer completed'",
          " && echo 'Transfer completed'");
  }

  lemma Three(a: string, and: string, chmod: string, andChmod: string, path: string, done: string, andDone: string)
    requires and + chmod == andChmod && and + done == andDone
    ensures a + and + (chmod + path) + and + done == a + andChmod + path + andDone
  {
  }

  /** The text of each command is the line of its words. */
  lemma TextIsLine(command: Command, path: string)
    ensures Text(command, path) == Line(WordsOf(command, path))
  {
    match command
    case Whole(text) => WholeIsLine(text, path);
    case Create(text) => PrintedIsLine(text, ">", "' | base64 -d > ", path);
    case Append(text) => PrintedIsLine(text, ">>", "' | base64 -d >> ", path);
    case MakeExecutable => LineOfChmod(path);
  }

  lemma PrintedIsLine(text: string, to: string, between: string, path: string)
    requires (to == ">" && between == "' | base64 -d > ") || (to == ">>" && between == "' | base64 -d >> ")
    ensures Line(Echo(text, false, to, path)) == "echo -n '" + text + between + path
  {
    LineOfEcho(text, false, to, path);
    TargetLiterals();
    Settle("echo -n '", text, "' | base64 -d ", to, " ", between, path);
  }

  // ----- The words have the effect -----

  /** A path that is one word. */
  predicate IsPath(path: string) {
    Writable(Bare(path))
  }

  lemma NextAnd(before: seq<Word>, after: seq<Word>, files: Files, success: bool)
    requires before == [Bare("&&")] + after
    ensures Next(before, files, success) == if success then Run(after, files) else Some(files)
  {
    assert before[1..] == after;
  }

  lemma RunEcho(text: string, ends: bool, to: string, path: string, rest: seq<Word>, files: Files)
    requires to == ">" || to == ">>"
    ensures var decoded := ShellDecode(text + (if ends then "\n" else ""));
            var file := At(files, path);
            var content := if to == ">" then decoded else Then(file.content, decoded);
            Run(Echo(text, ends, to, path) + rest, files)
            == Next(rest, files[path := file.(content := content)], decoded.Some?)
  {
    var words := Echo(text, ends, to, path) + rest;
    var at := if ends then 1 else 2;
    var after := words[at + 1..];
    assert words[at] == Quoted(text) && (ends ==> words[1] != Bare("-n"));
    assert after == [Bare("|"), Bare("base64"), Bare("-d"), Bare(to), Bare(path)] + rest;
    assert after[..3] == [Bare("|"), Bare("base64"), Bare("-d")] && after[5..] == rest;
    assert words[..2] != [Bare("chmod"), Bare("+x")] by { assert words[0] == Bare("echo"); }
    assert text + "" == text;
  }

  lemma RunChmod(path: string, rest: seq<Word>, files: Files)
    requires path in files
    ensures Run(Chmod(path) + rest, files) == Next(rest, files[path := files[path].(executable := true)], true)
  {
    var words := Chmod(path) + rest;
    assert words[..2] == [Bare("chmod"), Bare("+x")] && words[3..] == rest;
  }

  lemma RunDone(files: Files)
    ensures Run(DONE, files) == Some(files)
  {
    assert DONE[2..] == [];
  }

  lemma RunWhole(text: string, path: string, files: Files)
    ensures Run(WordsOf(Whole(text), path), files) == Some(files[path := Effect(At(files, path), Whole(text))])
  {
    var last := [Bare("&&")] + DONE;
    var chmod := [Bare("&&")] + (Chmod(path) + last);
    assert WordsOf(Whole(text), path) == Echo(text, true, ">", path) + chmod;
    RunEcho(text, true, ">", path, chmod, files);
    var decoded := ShellDecode(text + "\n");
    var written := files[path := At(files, path).(content := decoded)];
    NextAnd(chmod, Chmod(path) + last, written, decoded.Some?);
    RunChmod(path, last, written);
    var finished := written[path := written[path].(executable := true)];
    NextAnd(last, DONE, finished, true);
    RunDone(finished);
    assert finished == files[path := Remote(decoded, true)];
    assert decoded.None? ==> written == files[path := Effect(At(files, path), Whole(text))];
  }

  lemma RunHasEffect(command: Command, path: string, files: Files)
    requires command.MakeExecutable? ==> path in files
    ensures Run(WordsOf(command, path), files) == Some(files[path := Effect(At(files, path), command)])
  {
    assert WordsOf(command, path) + [] == WordsOf(command, path);
    match command
    case Whole(text) => RunWhole(text, path, files);
    case Create(text) => RunPrinted(text, ">", path, files);
    case Append(text) => RunPrinted(text, ">>", path, files);
    case MakeExecutable => RunChmod(path, [], files);
  }

  lemma RunPrinted(text: string, to: string, path: string, files: Files)
    requires to == ">" || to == ">>"
    ensures Run(Echo(text, false, to, path), files)
         == Some(files[path := Effect(At(files, path), if to == ">" then Create(text) else Append(text))])
  {
    RunEcho(text, false, to, path, [], files);
    assert Echo(text, false, to, path) + [] == Echo(text, false, to, path);
    assert text + "" == text;
  }

  ghost predicate AllWritable(words: seq<Word>) {
    forall i :: 0 <= i < |words| ==> Writable(words[i])
  }

  lemma WritableJoin(a: seq<Word>, b: seq<Word>)
    requires AllWritable(a) && AllWritable(b)
    ensures AllWritable(a + b)
  {
  }

  lemma EchoIsWritable(text: string, ends: bool, to: string, path: string)
    requires IsPath(path) && '\'' !in text && (to == ">" || to == ">>")
    ensures AllWritable(Echo(text, ends, to, path))
  {
    WritableJoin(if ends then [Bare("echo")] else [Bare("echo"), Bare("-n")],
                 [Quoted(text), Bare("|"), Bare("base64"), Bare("-d"), Bare(to), Bare(path)]);
  }

  lemma WordsAreWritable(command: Command, path: string)
    requires IsPath(path) && (command.MakeExecutable? || '\'' !in command.text)
    ensures AllWritable(WordsOf(command, path))
  {
    match command
    case Whole(text) =>
      var echo := Echo(text, true, ">", path);
      EchoIsWritable(text, true, ">", path);
      WritableJoin(echo, [Bare("&&")]);
      WritableJoin(echo + [Bare("&&")], Chmod(path));
      WritableJoin(echo + [Bare("&&")] + Chmod(path), [Bare("&&")]);
      WritableJoin(echo + [Bare("&&")] + Chmod(path) + [Bare("&&")], DONE);
    case Create(text) => EchoIsWritable(text, false, ">", path);
    case Append(text) => EchoIsWritable(text, false, ">>", path);
    case MakeExecutable =>
  }

  lemma TextReads(command: Command, path: string)
    requires IsPath(path) && (command.MakeExecutable? || '\'' !in command.text)
    ensures Words(Text(command, path)) == Some(WordsOf(command, path))
  {
    TextIsLine(command, path);
    WordsAreWritable(command, path);
    WordsOfLine(WordsOf(command, path));
  }

  /** Main result: read from its characters alone, the line of each command does to the file at the path what the
      command is meant to do, and nothing to any other file. */
  lemma ExecuteHasEffect(command: Command, path: string, files: Files)
    requires IsPath(path) && (command.MakeExecutable? ==> path in files)
    requires command.MakeExecutable? || '\'' !in command.text
    ensures Execute(Text(command, path), files) == Some(files[path := Effect(At(files, path), command)])
  {
    TextReads(command, path);
    RunHasEffect(command, path, files);
  }

  // ----- The whole upload -----

  function Texts(commands: seq<Command>, path: string): seq<string> {
    if commands == [] then [] else
      Texts(commands[..|commands| - 1], path) + [Text(commands[|commands| - 1], path)]
  }

  /** The commands hold no quote, and the file is made executable only after it is there. */
  ghost predicate Proper(commands: seq<Command>) {
    forall i :: 0 <= i < |commands| ==>
      if commands[i].MakeExecutable? then i > 0 else '\'' !in commands[i].text
  }

  /** What the commands make of the files. */
  function Made(files: Files, commands: seq<Command>, path: string): Files {
    if commands == [] then files else files[path := Effects(At(files, path), commands)]
  }

  lemma ProperParts(commands: seq<Command>, command: Command)
    requires Proper(commands + [command])
    ensures Proper(commands)
    ensures if command.MakeExecutable? then commands != [] else '\'' !in command.text
  {
    var all := commands + [command];
    assert all[|commands|] == command;
    assert forall i :: 0 <= i < |commands| ==> commands[i] == all[i];
  }

  lemma ProperPrefix(commands: seq<Command>, n: nat)
    requires Proper(commands) && n <= |commands|
    ensures Proper(commands[..n])
  {
    assert forall i :: 0 <= i < n ==> commands[..n][i] == commands[i];
  }

  lemma ChunkComesNext(chunks: seq<string>, i: nat)
    requires 1 <= i < |chunks| && Proper(ChunkCommands(chunks))
    ensures var commands := ChunkCommands(chunks);
            commands[..i + 1] == commands[..i] + [Append(chunks[i])] && Proper(commands[..i + 1])
  {
    ProperPrefix(ChunkCommands(chunks), i + 1);
  }

  lemma MadeByOneMore(files: Files, commands: seq<Command>, command: Command, path: string)
    ensures At(Made(files, commands, path), path) == Effects(At(files, path), commands)
    ensures Made(files, commands, path)[path := Effect(Effects(At(files, path), commands), command)]
         == Made(files, commands + [command], path)
  {
    EffectsAppend(At(files, path), commands, command);
  }

  lemma OneMoreText(commands: seq<Command>, command: Command, path: string)
    ensures Texts(commands + [command], path) == Texts(commands, path) + [Text(command, path)]
  {
    assert (commands + [command])[..|commands|] == commands;
  }

  lemma OneMoreLine(files: Files, commands: seq<Command>, command: Command, path: string)
    requires IsPath(path) && Proper(commands + [command])
    ensures Execute(Text(command, path), Made(files, commands, path)) == Some(Made(files, commands + [command], path))
    ensures Texts(commands + [command], path) == Texts(commands, path) + [Text(command, path)]
    ensures Proper(commands)
  {
    ProperParts(commands, command);
    ExecuteHasEffect(command, path, Made(files, commands, path));
    MadeByOneMore(files, commands, command, path);
    OneMoreText(commands, command, path);
  }

  lemma ExecuteAllAppend(lines: seq<string>, line: string, files: Files)
    ensures ExecuteAll(lines + [line], files)
         == var before := ExecuteAll(lines, files); if before.None? then None else Execute(line, before.value)
  {
    assert (lines + [line])[..|lines|] == lines;
  }

  lemma {:induction false} LinesHaveEffects(files: Files, commands: seq<Command>, path: string)
    requires IsPath(path) && Proper(commands)
    ensures ExecuteAll(Texts(commands, path), files) == Some(Made(files, commands, path))
  {
    if commands == [] {
    } else {
      var before, last := commands[..|commands| - 1], commands[|commands| - 1];
      assert before + [last] == commands;
      OneMoreLine(files, before, last, path);
      LinesHaveEffects(files, before, path);
      ExecuteAllAppend(Texts(before, path), Text(last, path), files);
    }
  }

  lemma {:induction false} ChunksHaveNoQuote(text: string, size: nat)
    requires size > 0 && '\'' !in text
    ensures forall i :: 0 <= i < |Chunks(text, size)| ==> '\'' !in Chunks(text, size)[i]
  {
    if |text| > size {
      ChunksHaveNoQuote(text[size..], size);
    }
  }

  lemma CommandsAreProper(encoded: string)
    requires '\'' !in encoded
    ensures Proper(Commands(encoded))
  {
    if |encoded| > MAX_COMMAND_SIZE {
      ChunksWithin(encoded, CHUNK_SIZE);
      ChunksHaveNoQuote(encoded, CHUNK_SIZE);
    }
  }

  /** Main result: a shell that reads the lines of a transfer, in order, is left with the binary at the path,
      executable, whatever was there before, and with all other files as they were. */
  lemma TransferArrives(binary: seq<Byte>, path: string, files: Files)
    requires IsPath(path)
    ensures ExecuteAll(Texts(Commands(Encode64(binary)), path), files)
         == Some(files[path := Remote(Some(binary), true)])
  {
    NoQuote(binary);
    CommandsAreProper(Encode64(binary));
    LinesHaveEffects(files, Commands(Encode64(binary)), path);
    CommandsArrive(At(files, path), binary);
  }

  /** What the transfer relies on. */
  lemma TransferFacts(binary: seq<Byte>, path: string, files: Files)
    requires IsPath(path)
    ensures var encoded := Encode64(binary);
            && Proper(Commands(encoded))
            && ExecuteAll(Texts(Commands(encoded), path), files) == Some(Made(files, Commands(encoded), path))
            && Made(files, Commands(encoded), path) == files[path := Remote(Some(binary), true)]
            && (|encoded| > MAX_COMMAND_SIZE ==>
                  Chunks(encoded, CHUNK_SIZE) != [] && Proper(ChunkCommands(Chunks(encoded, CHUNK_SIZE))))
  {
    var encoded := Encode64(binary);
    NoQuote(binary);
    CommandsAreProper(encoded);
    LinesHaveEffects(files, Commands(encoded), path);
    TransferArrives(binary, path, files);
    if |encoded| > MAX_COMMAND_SIZE {
      ChunksWithin(encoded, CHUNK_SIZE);
      ProperParts(ChunkCommands(Chunks(encoded, CHUNK_SIZE)), MakeExecutable);
    }
  }

  lemma NoQuote(bytes: seq<Byte>)
    ensures '\'' !in Encode64(bytes)
  {
    OnlyCodeCharacters(EncodeGroup, bytes, '\'');
  }

  /** The remote host: its files and the lines its shell was given. */
  class Shell {
    var files: Files
    var sent: seq<string>

    /** The commands were run on these files. */
    ghost predicate Ran(first: Files, commands: seq<Command>, path: string)
      reads this
    {
      files == Made(first, commands, path) && sent == Texts(commands, path)
    }

    constructor (files: Files)
      ensures this.files == files && sent == []
    {
      this.files, sent := files, [];
    }

    method Exec(line: string)
      requires Execute(line, files).Some?
      modifies this
      ensures Some(files) == Execute(line, old(files)) && sent == old(sent) + [line]
    {
      files := Execute(line, files).value;
      sent := sent + [line];
    }

    method ExecNext(line: string, command: Command, path: string, ghost first: Files,
                    ghost before: seq<Command>)
      requires Ran(first, before, path) && IsPath(path) && Proper(before + [command]) && line == Text(command, path)
      modifies this
      ensures Ran(first, before + [command], path)
    {
      OneMoreLine(first, before, command, path);
      Exec(line);
    }

    /** The first command creates the file, the others append to it. */
    method ExecChunks(chunks: seq<string>, path: string)
      requires Ran(files, [], path) && IsPath(path) && chunks != [] && Proper(ChunkCommands(chunks))
      modifies this
      ensures Ran(old(files), ChunkCommands(chunks), path)
    {
      ghost var commands := ChunkCommands(chunks);
      assert commands[..1] == [] + [Create(chunks[0])];
      ExecNext("echo -n '" + chunks[0] + "' | base64 -d > " + path, Create(chunks[0]), path, old(files), []);
      for i := 1 to |chunks|
        invariant Ran(old(files), commands[..i], path)
      {
        ChunkComesNext(chunks, i);
        ExecNext("echo -n '" + chunks[i] + "' | base64 -d >> " + path, Append(chunks[i]), path, old(files),
                 commands[..i]);
      }
      assert commands[..|chunks|] == commands;
    }

    method ExecWhole(encoded: string, path: string)
      requires Ran(files, [], path) && IsPath(path) && Proper([Whole(encoded)])
      modifies this
      ensures Ran(old(files), [Whole(encoded)], path)
    {
      assert [] + [Whole(encoded)] == [Whole(encoded)];
      var line :=
        "echo '" + encoded + "' | base64 -d > " + path + " && chmod +x " + path + " && echo 'Transfer completed'";
      ExecNext(line, Whole(encoded), path, files, []);
    }

    method ExecInChunks(chunks: seq<string>, path: string)
      requires Ran(files, [], path) && IsPath(path) && chunks != []
      requires Proper(ChunkCommands(chunks)) && Proper(ChunkCommands(chunks) + [MakeExecutable])
      modifies this
      ensures Ran(old(files), ChunkCommands(chunks) + [MakeExecutable], path)
    {
      ExecChunks(chunks, path);
      ExecNext("chmod +x " + path, MakeExecutable, path, old(files), ChunkCommands(chunks));
    }

    /** The whole transfer, whatever the files were. */
    method Transfer(binary: seq<Byte>, path: string)
      requires sent == [] && IsPath(path)
      modifies this
      ensures files == old(files)[path := Remote(Some(binary), true)]
      ensures ExecuteAll(sent, old(files)) == Some(files)
      ensures sent == Texts(Commands(Encode64(binary)), path)
    {
      var encoded := Encode64(binary);
      TransferFacts(binary, path, files);
      if |encoded| <= MAX_COMMAND_SIZE {
        ExecWhole(encoded, path);
      } else {
        ExecInChunks(Chunks(encoded, CHUNK_SIZE), path);
      }
    }
  }
}
