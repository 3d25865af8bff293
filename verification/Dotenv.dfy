/** The dotenv line editor: reading a key, and replacing or appending one `KEY='value'` line.

    `UpsertEnvValue` is the editor's loop. The lemmas say which texts keep their lines and which
    edits are repeatable; the answer to both is the same condition on the text. */
module Dotenv {
  import opened Wrappers
  import opened Texts

  const BOM := '\U{FEFF}'

  predicate IsQuote(c: char) {
    c == '\'' || c == '"'
  }

  // ---------- Lines ----------

  function StripCR(line: string): string {
    if line != "" && line[|line| - 1] == '\r' then line[..|line| - 1] else line
  }

  /** The lines of a text. A line that ends the text without a line feed keeps a final carriage return. */
  function Lines(s: string): (lines: seq<string>)
    ensures s != "" ==> lines != []
    ensures forall l :: l in lines ==> '\n' !in l
    decreases |s|
  {
    if s == "" then []
    else
      var i := IndexOf(s, '\n');
      if i == |s| then [s] else [StripCR(s[..i])] + Lines(s[i + 1..])
  }

  predicate HasCRLF(s: string) {
    exists i :: 0 <= i < |s| - 1 && s[i] == '\r' && s[i + 1] == '\n'
  }

  function Eol(s: string): string {
    if HasCRLF(s) then "\r\n" else "\n"
  }

  function Terminate(lines: seq<string>, eol: string): string {
    if lines == [] then "" else lines[0] + eol + Terminate(lines[1..], eol)
  }

  // ---------- Reading a key ----------

  /** A line without a byte order mark at its start and without a leading `export`. */
  function Body(line: string): string {
    var a := if line != "" && line[0] == BOM then line[1..] else line;
    if "export " <= a then TrimStart(a[7..], IsWhiteSpace) else a
  }

  /** What a line assigns to `key`: the trimmed text behind the equals sign, with quotes taken off both ends. */
  function LineValue(line: string, key: string): Option<string> {
    var b := Body(line);
    if key <= b && |key| < |b| && b[|key|] == '=' then
      Some(Trim(Trim(b[|key| + 1..], IsWhiteSpace), IsQuote))
    else None
  }

  /** What `key` reads as, line by line. */
  function Readings(lines: seq<string>, key: string): seq<string> {
    if lines == [] then []
    else (match LineValue(lines[0], key) case None => [] case Some(v) => [v]) + Readings(lines[1..], key)
  }

  predicate HasValue(content: string, key: string) {
    exists line :: line in Lines(content) && LineValue(line, key).Some? && LineValue(line, key).value != ""
  }

  // ---------- Editing ----------

  datatype EnvError = CannotQuote | Missing

  /** The index of the first line that sets `key`, or the number of lines. */
  function FirstMatch(lines: seq<string>, key: string): (i: nat)
    ensures i <= |lines|
    ensures forall j :: 0 <= j < i ==> LineValue(lines[j], key) == None
    ensures i < |lines| ==> LineValue(lines[i], key).Some?
  {
    MatchFrom(lines, key, 0)
  }

  function MatchFrom(lines: seq<string>, key: string, from: nat): (i: nat)
    requires from <= |lines|
    ensures from <= i <= |lines|
    ensures forall j :: from <= j < i ==> LineValue(lines[j], key) == None
    ensures i < |lines| ==> LineValue(lines[i], key).Some?
    decreases |lines| - from
  {
    hide LineValue;
    if from == |lines| then from
    else if LineValue(lines[from], key).Some? then from
    else
      var i := MatchFrom(lines, key, from + 1);
      assert LineValue(lines[from], key) == None;
      i
  }

  function NewLine(key: string, value: string): string {
    key + "='" + value + "'"
  }

  /** Only the first line that sets the key changes; without one, a line is added at the end. */
  function Edited(lines: seq<string>, key: string, value: string): seq<string> {
    var i := FirstMatch(lines, key);
    if i < |lines| then lines[i := NewLine(key, value)] else lines + [NewLine(key, value)]
  }

  predicate Quotable(value: string) {
    '\'' !in value && '\n' !in value && '\r' !in value
  }

  function Upserted(content: string, key: string, value: string): string {
    Terminate(Edited(Lines(content), key, value), Eol(content))
  }

  method UpsertEnvValue(file: Option<string>, key: string, value: string) returns (r: Result<string, EnvError>)
    ensures r == if '\'' in value || '\n' in value || '\r' in value then Err(CannotQuote)
                 else if file.None? then Err(Missing)
                 else Ok(Upserted(file.value, key, value))
  {
    hide LineValue, Lines, HasCRLF, Terminate;
    if !Quotable(value) {
      return Err(CannotQuote);
    }
    if file.None? {
      return Err(Missing);
    }
    var content := file.value;
    var eol := if HasCRLF(content) then "\r\n" else "\n";
    var newLine := NewLine(key, value);
    var replaced := false;
    var given := Lines(content);
    var lines: seq<string> := [];
    var n := 0;
    while n < |given|
      invariant 0 <= n <= |given| && |lines| == n
      invariant replaced == (FirstMatch(given, key) < n)
      invariant forall j :: 0 <= j < n ==> lines[j] == if j == FirstMatch(given, key) then newLine else given[j]
    {
      if !replaced && LineValue(given[n], key).Some? {
        replaced := true;
        lines := lines + [newLine];
      } else {
        lines := lines + [given[n]];
      }
      n := n + 1;
    }
    if !replaced {
      lines := lines + [newLine];
    }
    assert lines == Edited(given, key, value);
    JoinTerminates(lines, eol);
    return Ok(Join(lines, eol) + eol);
  }

  lemma {:induction false} JoinTerminates(lines: seq<string>, eol: string)
    requires lines != []
    ensures Join(lines, eol) + eol == Terminate(lines, eol)
  {
    if |lines| > 1 {
      JoinTerminates(lines[1..], eol);
    }
  }

  /** `env_has_value`: some line sets the key to a non-empty value. */
  method EnvHasValue(file: Option<string>, key: string) returns (r: Result<bool, EnvError>)
    ensures r == if file.None? then Err(Missing) else Ok(HasValue(file.value, key))
  {
    hide LineValue, Lines;
    if file.None? {
      return Err(Missing);
    }
    var lines := Lines(file.value);
    for n := 0 to |lines|
      invariant forall j :: 0 <= j < n ==> LineValue(lines[j], key).None? || LineValue(lines[j], key).value == ""
    {
      var v := LineValue(lines[n], key);
      if v.Some? && v.value != "" {
        return Ok(true);
      }
    }
    return Ok(false);
  }

  // ---------- Lines of an edited text ----------

  function Stripped(lines: seq<string>): seq<string> {
    seq(|lines|, i requires 0 <= i < |lines| => StripCR(lines[i]))
  }

  /** Lines read back: a lone line feed takes one carriage return from the line before it, a
      carriage return and line feed take none. */
  lemma {:induction false} LinesOfTerminated(lines: seq<string>, eol: string)
    requires eol == "\n" || eol == "\r\n"
    requires forall l :: l in lines ==> '\n' !in l
    ensures Lines(Terminate(lines, eol)) == if eol == "\n" then Stripped(lines) else lines
  {
    hide Lines, StripCR;
    if lines == [] {
      NoLines();
    } else {
      var body := if eol == "\n" then lines[0] else lines[0] + "\r";
      var rest := Terminate(lines[1..], eol);
      LinesOfTerminated(lines[1..], eol);
      assert '\n' !in body;
      assert Terminate(lines, eol) == body + ['\n'] + rest;
      FirstLine(body, rest);
      StripAdded(lines[0]);
      assert lines == [lines[0]] + lines[1..];
      assert Stripped(lines) == [StripCR(lines[0])] + Stripped(lines[1..]);
    }
  }

  lemma NoLines()
    ensures Lines("") == []
  {
  }

  lemma StripAdded(line: string)
    ensures StripCR(line + "\r") == line
  {
  }

  lemma FirstLine(body: string, rest: string)
    requires '\n' !in body
    ensures Lines(body + ['\n'] + rest) == [StripCR(body)] + Lines(rest)
  {
    var s := body + ['\n'] + rest;
    IndexOfAt(body, rest, '\n');
    assert s[..|body|] == body && s[|body| + 1..] == rest;
  }

  lemma CRLFIn(a: string, b: string)
    ensures HasCRLF(a + "\r\n" + b)
  {
    var s := a + "\r\n" + b;
    assert s[|a|] == '\r' && s[|a| + 1] == '\n';
  }

  lemma CRLFConcat(a: string, b: string)
    ensures HasCRLF(a) || HasCRLF(b) ==> HasCRLF(a + b)
  {
    if HasCRLF(a) {
      var i :| 0 <= i < |a| - 1 && a[i] == '\r' && a[i + 1] == '\n';
      assert (a + b)[i] == '\r' && (a + b)[i + 1] == '\n';
    }
    if HasCRLF(b) {
      var i :| 0 <= i < |b| - 1 && b[i] == '\r' && b[i + 1] == '\n';
      assert (a + b)[|a| + i] == '\r' && (a + b)[|a| + i + 1] == '\n';
    }
  }

  lemma CRLFAfterCR(a: string, b: string)
    requires EndsCR(a)
    ensures HasCRLF(a + ['\n'] + b)
  {
    var s := a + ['\n'] + b;
    assert s[|a| - 1] == '\r' && s[|a| - 1 + 1] == '\n';
  }

  predicate EndsCR(s: string) {
    s != "" && s[|s| - 1] == '\r'
  }

  /** Without a carriage return and line feed in the text, only its last line can end in a carriage return. */
  lemma {:induction false} OnlyLastEndsCR(s: string)
    requires !HasCRLF(s)
    ensures forall j :: 0 <= j < |Lines(s)| - 1 ==> !EndsCR(Lines(s)[j])
    ensures s != "" ==> (EndsCR(Lines(s)[|Lines(s)| - 1]) <==> EndsCR(s))
    decreases |s|
  {
    hide Lines, HasCRLF;
    var i := IndexOf(s, '\n');
    if s == "" {
      NoLines();
    } else if i == |s| {
      OneLine(s);
    } else {
      var a, b := s[..i], s[i + 1..];
      assert s == a + ['\n'] + b;
      if EndsCR(a) {
        CRLFAfterCR(a, b);
      }
      CRLFConcat(a + ['\n'], b);
      OnlyLastEndsCR(b);
      FirstLine(a, b);
      NoLines();
    }
  }

  lemma OneLine(s: string)
    requires s != "" && '\n' !in s
    ensures Lines(s) == [s]
  {
    IndexOfNone(s, '\n');
  }

  // ---------- What an edit keeps ----------

  /** The one kind of text an edit changes beyond its line: the text ends in a carriage return, has no
      carriage return and line feed, and its last line is not the one replaced. */
  predicate Stray(content: string, key: string) {
    EndsCR(content) && !HasCRLF(content) && FirstMatch(Lines(content), key) != |Lines(content)| - 1
  }

  /** The edit, spelled out: the first line that sets the key gives way to the new one, or the new one is added;
      lines end as the text's own do. */
  lemma EditSpelled(content: string, key: string, value: string)
    ensures var lines, newLine := Lines(content), key + "='" + value + "'";
            var eol := if exists a, b :: content == a + "\r\n" + b then "\r\n" else "\n";
            && ((forall l :: l in lines ==> LineValue(l, key) == None) ==>
                  Upserted(content, key, value) == Join(lines + [newLine], eol) + eol)
            && (forall i :: 0 <= i < |lines| && LineValue(lines[i], key).Some? && (forall j :: 0 <= j < i ==> LineValue(lines[j], key) == None) ==>
                  Upserted(content, key, value) == Join(lines[..i] + [newLine] + lines[i + 1..], eol) + eol)
  {
    hide LineValue, Lines, HasCRLF, Terminate, FirstMatch;
    var lines, newLine := Lines(content), NewLine(key, value);
    CRLFIff(content);
    JoinTerminates(Edited(lines, key, value), Eol(content));
    forall i | 0 <= i < |lines| && LineValue(lines[i], key).Some? && (forall j :: 0 <= j < i ==> LineValue(lines[j], key) == None)
      ensures Edited(lines, key, value) == lines[..i] + [newLine] + lines[i + 1..]
    {
      FirstMatchIs(lines, key, i);
      assert lines[i := newLine] == lines[..i] + [newLine] + lines[i + 1..];
    }
  }

  lemma CRLFIff(s: string)
    ensures HasCRLF(s) <==> exists a, b :: s == a + "\r\n" + b
  {
    if HasCRLF(s) {
      var i :| 0 <= i < |s| - 1 && s[i] == '\r' && s[i + 1] == '\n';
      assert s == s[..i] + "\r\n" + s[i + 2..];
    }
    if a, b :| s == a + "\r\n" + b {
      CRLFIn(a, b);
    }
  }

  lemma EditedLines(content: string, key: string, value: string)
    requires Quotable(value) && '\n' !in key
    ensures var edited := Edited(Lines(content), key, value);
            && (forall l :: l in edited ==> '\n' !in l)
            && edited != []
            && Lines(Upserted(content, key, value)) == if HasCRLF(content) then edited else Stripped(edited)
  {
    hide HasCRLF, Lines, LineValue;
    var edited := Edited(Lines(content), key, value);
    assert '\n' !in NewLine(key, value);
    LinesOfTerminated(edited, Eol(content));
  }

  /** Which lines of the edited text end in a carriage return, when line feeds alone end lines. */
  lemma EditedEndsCR(content: string, key: string, value: string)
    requires !HasCRLF(content)
    ensures var edited := Edited(Lines(content), key, value);
            forall j :: 0 <= j < |edited| ==> (EndsCR(edited[j]) <==> Stray(content, key) && j == |Lines(content)| - 1)
  {
    hide HasCRLF, Lines, LineValue;
    OnlyLastEndsCR(content);
    NewLineEnds(key, value);
    if content == "" {
      NoLines();
    }
  }

  lemma NewLineEnds(key: string, value: string)
    ensures var l := NewLine(key, value); l != "" && l[|l| - 1] == '\'' && !EndsCR(l)
  {
  }

  /** The edited text has exactly the edited lines, unless a stray carriage return ends it. */
  lemma LinesKeptIffNoStray(content: string, key: string, value: string)
    requires Quotable(value) && '\n' !in key
    ensures Lines(Upserted(content, key, value)) == Edited(Lines(content), key, value) <==> !Stray(content, key)
  {
    hide HasCRLF, Lines, LineValue, Edited, FirstMatch, Upserted;
    var edited := Edited(Lines(content), key, value);
    EditedLines(content, key, value);
    if !HasCRLF(content) {
      StrippedSame(content, key, value);
    }
  }

  lemma StrippedSame(content: string, key: string, value: string)
    requires !HasCRLF(content)
    ensures var edited := Edited(Lines(content), key, value);
            Stripped(edited) == edited <==> !Stray(content, key)
  {
    hide HasCRLF, Lines, LineValue;
    var edited := Edited(Lines(content), key, value);
    EditedEndsCR(content, key, value);
    if Stray(content, key) {
      HasLines(content);
      assert Stripped(edited)[|Lines(content)| - 1] != edited[|Lines(content)| - 1];
    }
  }

  lemma HasLines(content: string)
    requires content != ""
    ensures Lines(content) != []
  {
  }

  // ---------- Reading back ----------

  /** A key whose own line is recognised as its own and as no other key's. */
  predicate PlainKey(key: string) {
    && '=' !in key && '\n' !in key && '\r' !in key
    && (key != "" ==> key[0] != BOM)
    && !("export " <= key)
  }

  lemma NewLineReads(key: string, value: string)
    requires PlainKey(key)
    ensures LineValue(NewLine(key, value), key) == Some(Trim(value, IsQuote))
  {
    hide IsWhiteSpace, IsQuote, Trim, PlainKey;
    var line := NewLine(key, value);
    NotExported(key, "'" + value + "'");
    assert line == key + "=" + ("'" + value + "'");
    var quoted := "'" + value + "'";
    assert line[|key| + 1..] == quoted;
    assert "" + quoted + "" == quoted;
    QuoteIsNotSpace();
    TrimPad("", quoted, "", IsWhiteSpace);
    TrimAround("'", value, "'", IsQuote);
  }

  lemma QuoteIsNotSpace()
    ensures IsQuote('\'') && !IsWhiteSpace('\'')
  {
  }

  lemma NotExported(key: string, rest: string)
    requires PlainKey(key)
    ensures !("export " <= key + "=" + rest)
    ensures (key + "=" + rest)[0] != BOM
  {
    var line := key + "=" + rest;
    if |key| < 7 {
      assert line[|key|] == '=' && "export "[|key|] != '=';
    } else {
      assert line[..7] == key[..7];
    }
  }

  /** A byte order mark and an `export` before a plain key, and white space around its value, are skipped. */
  lemma MarkedAndExportedReads(mark: bool, exported: bool, pad: string, key: string, before: string, value: string, after: string)
    requires PlainKey(key) && key != "" && !IsWhiteSpace(key[0])
    requires AllOf(pad, IsWhiteSpace) && AllOf(before, IsWhiteSpace) && AllOf(after, IsWhiteSpace)
    ensures var body := key + "=" + (before + value + after);
            var line := (if mark then [BOM] else []) + (if exported then "export " + pad else "") + body;
            LineValue(line, key) == Some(Trim(Trim(value, IsWhiteSpace), IsQuote))
  {
    hide IsWhiteSpace, Trim, PlainKey, Body;
    var body := key + "=" + (before + value + after);
    NotExported(key, before + value + after);
    BodyOf(mark, exported, pad, body);
    assert body[|key| + 1..] == before + value + after;
    TrimAround(before, value, after, IsWhiteSpace);
  }

  /** A line sets a key exactly when, behind an optional byte order mark and an optional `export` with white
      space after it, it is the key, an equals sign and anything. */
  lemma SetsKeyIff(line: string, key: string)
    requires PlainKey(key) && key != "" && !IsWhiteSpace(key[0])
    ensures LineValue(line, key).Some? <==>
            exists mark: bool, exported: bool, pad: string, rest: string ::
              AllOf(pad, IsWhiteSpace) && line == SettingLine(mark, exported, pad, key, rest)
  {
    hide IsWhiteSpace, Trim, PlainKey, TrimStart, Body;
    if LineValue(line, key).Some? {
      var b := Body(line);
      var rest := b[|key| + 1..];
      var mark, exported, pad := BodySplits(line);
      assert b == key + "=" + rest;
      assert line == SettingLine(mark, exported, pad, key, rest);
    }
    if mark: bool, exported: bool, pad: string, rest: string :|
      AllOf(pad, IsWhiteSpace) && line == SettingLine(mark, exported, pad, key, rest) {
      MarkedAndExportedReads(mark, exported, pad, key, "", rest, "");
      assert "" + rest + "" == rest;
    }
  }

  lemma BodySplits(line: string) returns (mark: bool, exported: bool, pad: string)
    ensures AllOf(pad, IsWhiteSpace)
    ensures line == (if mark then [BOM] else []) + (if exported then "export " + pad else "") + Body(line)
  {
    hide IsWhiteSpace, TrimStart, AllOf;
    mark := line != "" && line[0] == BOM;
    var a := if mark then line[1..] else line;
    assert line == (if mark then [BOM] else []) + a;
    exported := "export " <= a;
    pad := TrimStartSplits(if exported then a[7..] else "", IsWhiteSpace);
    if exported {
      PrefixSplits("export ", a, pad, Body(line));
      Regrouped(if mark then [BOM] else [], "export " + pad, Body(line));
    } else {
      Regrouped(if mark then [BOM] else [], "", a);
    }
  }

  lemma PrefixSplits(prefix: string, a: string, pad: string, rest: string)
    requires prefix <= a && a[|prefix|..] == pad + rest
    ensures a == prefix + pad + rest
  {
    assert a == prefix + a[|prefix|..];
  }

  lemma Regrouped(x: string, y: string, z: string)
    ensures x + (y + z) == x + y + z
  {
  }

  function SettingLine(mark: bool, exported: bool, pad: string, key: string, rest: string): string {
    (if mark then [BOM] else []) + (if exported then "export " + pad else "") + (key + "=" + rest)
  }

  lemma BodyOf(mark: bool, exported: bool, pad: string, body: string)
    requires body != "" && !IsWhiteSpace(body[0]) && body[0] != BOM && !("export " <= body)
    requires AllOf(pad, IsWhiteSpace)
    ensures Body((if mark then [BOM] else []) + (if exported then "export " + pad else "") + body) == body
  {
    hide IsWhiteSpace, Body;
    var a := if exported then "export " + pad + body else body;
    if exported {
      ExportedBody(pad, body);
    } else {
      PlainBody(body);
    }
    var line := (if mark then [BOM] else []) + (if exported then "export " + pad else "") + body;
    if mark {
      MarkedBody(a);
      assert line == [BOM] + a;
    } else {
      assert line == a;
    }
  }

  lemma PlainBody(body: string)
    requires body != "" && body[0] != BOM && !("export " <= body)
    ensures Body(body) == body
  {
  }

  lemma MarkedBody(a: string)
    requires a != "" && a[0] != BOM
    ensures Body([BOM] + a) == Body(a)
  {
    hide TrimStart;
    assert ([BOM] + a)[1..] == a;
  }

  lemma ExportedBody(pad: string, body: string)
    requires body != "" && !IsWhiteSpace(body[0]) && AllOf(pad, IsWhiteSpace)
    ensures var a := "export " + pad + body; a[0] != BOM && Body(a) == body
  {
    hide IsWhiteSpace;
    var a := "export " + pad + body;
    assert a[0] == 'e' && "export " <= a;
    assert a[7..] == pad + body;
    TrimStartPad(pad, body, IsWhiteSpace);
  }

  /** A stored value reads back unchanged exactly when it neither starts nor ends with a double quote. */
  lemma ReadsBackIff(key: string, value: string)
    requires PlainKey(key) && Quotable(value)
    ensures LineValue(NewLine(key, value), key) == Some(value) <==>
            value == "" || (value[0] != '"' && value[|value| - 1] != '"')
  {
    NewLineReads(key, value);
    if value != "" && value[0] != '"' && value[|value| - 1] != '"' {
      assert value[0] in value && value[|value| - 1] in value;
      assert "" + value + "" == value;
      TrimPad("", value, "", IsQuote);
    }
  }

  lemma OneKeyALine(line: string, key: string, other: string)
    requires PlainKey(key) && PlainKey(other) && key != other
    requires LineValue(line, key).Some?
    ensures LineValue(line, other) == None
  {
    var b := Body(line);
    if other <= b && |other| < |b| && b[|other|] == '=' {
      SameKeyBeforeEquals(b, key, other);
    }
  }

  lemma SameKeyBeforeEquals(b: string, key: string, other: string)
    requires key <= b && |key| < |b| && b[|key|] == '='
    requires other <= b && |other| < |b| && b[|other|] == '='
    ensures key == other || '=' in key || '=' in other
  {
    if |key| < |other| {
      assert other[|key|] == b[|key|];
    } else if |other| < |key| {
      assert key[|other|] == b[|other|];
    } else {
      assert key == b[..|key|] == other;
    }
  }

  /** A carriage return at the end of a line changes nothing any key reads. */
  lemma CRReadsTheSame(line: string, key: string)
    requires '\r' !in key
    ensures LineValue(line + "\r", key) == LineValue(line, key)
  {
    hide IsWhiteSpace, Trim, TrimStart, Body;
    CRBody(line);
    if Body(line + "\r") == Body(line) + "\r" {
      CRAfterBody(Body(line), key);
    }
  }

  lemma CRBody(line: string)
    ensures Body(line + "\r") == Body(line) + "\r" || Body(line + "\r") == Body(line) == ""
  {
    hide TrimStart;
    var x := line + "\r";
    var a := if line != "" && line[0] == BOM then line[1..] else line;
    assert (if x[0] == BOM then x[1..] else x) == a + "\r";
    ExportBeforeCR(a);
    if "export " <= a {
      assert (a + "\r")[7..] == a[7..] + "\r";
      TrimStartBefore(a[7..], "\r", IsWhiteSpace);
    }
  }

  lemma ExportBeforeCR(a: string)
    ensures "export " <= a + "\r" <==> "export " <= a
  {
    var e, x := "export ", a + "\r";
    assert |e| == 7 && e[6] == ' ';
    if e <= x {
      assert x[6] == e[6];
      assert x[..7] == a[..7];
    }
  }

  lemma CRAfterBody(b: string, key: string)
    requires '\r' !in key
    ensures var x := b + "\r";
            && (key <= x && |key| < |x| && x[|key|] == '=' <==> key <= b && |key| < |b| && b[|key|] == '=')
            && (key <= b && |key| < |b| ==> Trim(x[|key| + 1..], IsWhiteSpace) == Trim(b[|key| + 1..], IsWhiteSpace))
  {
    var x := b + "\r";
    if key <= b && |key| < |b| {
      var v := b[|key| + 1..];
      assert x[|key| + 1..] == "" + v + "\r";
      TrimAround("", v, "\r", IsWhiteSpace);
    }
    if key <= x && |key| < |x| && x[|key|] == '=' {
      assert |key| < |b|;
      assert key == x[..|key|] == b[..|key|];
    }
  }

  lemma StripReadsTheSame(line: string, key: string)
    requires '\r' !in key
    ensures LineValue(StripCR(line), key) == LineValue(line, key)
  {
    hide LineValue;
    if EndsCR(line) {
      assert StripCR(line) + "\r" == line;
      CRReadsTheSame(StripCR(line), key);
    }
  }

  lemma {:induction false} StrippedReadings(lines: seq<string>, key: string)
    requires '\r' !in key
    ensures Readings(Stripped(lines), key) == Readings(lines, key)
  {
    hide LineValue, StripCR;
    if lines != [] {
      StripReadsTheSame(lines[0], key);
      assert Stripped(lines)[1..] == Stripped(lines[1..]);
      StrippedReadings(lines[1..], key);
    }
  }

  lemma {:induction false} ReadingsConcat(a: seq<string>, b: seq<string>, key: string)
    ensures Readings(a + b, key) == Readings(a, key) + Readings(b, key)
  {
    hide LineValue;
    if a == [] {
      assert a + b == b;
    } else {
      assert (a + b)[1..] == a[1..] + b;
      ReadingsConcat(a[1..], b, key);
    }
  }

  lemma {:induction false} NoReadings(lines: seq<string>, key: string)
    requires forall j :: 0 <= j < |lines| ==> LineValue(lines[j], key) == None
    ensures Readings(lines, key) == []
  {
    hide LineValue;
    if lines != [] {
      NoReadings(lines[1..], key);
    }
  }

  lemma OneReading(line: string, key: string)
    ensures Readings([line], key) == match LineValue(line, key) case None => [] case Some(v) => [v]
  {
    assert Readings([], key) == [];
  }

  function Rest<T>(s: seq<T>): seq<T> {
    if s == [] then [] else s[1..]
  }

  /** After an edit of any text the key reads as the new value where it first read as anything, and
      every other key reads exactly as before. */
  lemma ReadingsAfterEdit(content: string, key: string, value: string, other: string)
    requires PlainKey(key) && PlainKey(other) && Quotable(value)
    ensures var before, after := Lines(content), Lines(Upserted(content, key, value));
            && Readings(after, key) == [Trim(value, IsQuote)] + Rest(Readings(before, key))
            && (other != key ==> Readings(after, other) == Readings(before, other))
  {
    hide LineValue, Lines, HasCRLF, Edited, Upserted, NewLine, Trim, PlainKey;
    var before := Lines(content);
    PlainKeyChars(key);
    PlainKeyChars(other);
    EditedLines(content, key, value);
    EditedReadings(before, key, value, other);
    StrippedReadings(Edited(before, key, value), key);
    StrippedReadings(Edited(before, key, value), other);
  }

  lemma PlainKeyChars(key: string)
    requires PlainKey(key)
    ensures '\n' !in key && '\r' !in key
  {
  }

  lemma EditedReadings(lines: seq<string>, key: string, value: string, other: string)
    requires PlainKey(key) && PlainKey(other)
    ensures Readings(Edited(lines, key, value), key) == [Trim(value, IsQuote)] + Rest(Readings(lines, key))
    ensures other != key ==> Readings(Edited(lines, key, value), other) == Readings(lines, other)
  {
    hide LineValue, NewLine, Trim, PlainKey, Readings;
    var i := FirstMatch(lines, key);
    var line := NewLine(key, value);
    NewLineReads(key, value);
    OneReading(line, key);
    OneReading(line, other);
    NoReadings(lines[..i], key);
    if other != key {
      OneKeyALine(line, key, other);
    }
    if i == |lines| {
      assert lines[..i] == lines;
      ReadingsConcat(lines, [line], key);
      ReadingsConcat(lines, [line], other);
    } else {
      ReplacedReadings(lines, i, line, key);
      ReplacedReadings(lines, i, line, other);
      OneReading(lines[i], key);
      OneReading(lines[i], other);
      if other != key {
        OneKeyALine(lines[i], key, other);
      }
    }
  }

  lemma ReplacedReadings(lines: seq<string>, i: nat, line: string, key: string)
    requires i < |lines|
    ensures var a, b := Readings(lines[..i], key), Readings(lines[i + 1..], key);
            && Readings(lines, key) == a + Readings([lines[i]], key) + b
            && Readings(lines[i := line], key) == a + Readings([line], key) + b
  {
    hide LineValue, Readings;
    var a, b := lines[..i], lines[i + 1..];
    assert lines == a + [lines[i]] + b;
    assert lines[i := line] == a + [line] + b;
    ThreeReadings(a, lines[i], b, key);
    ThreeReadings(a, line, b, key);
  }

  lemma ThreeReadings(a: seq<string>, line: string, b: seq<string>, key: string)
    ensures Readings(a + [line] + b, key) == Readings(a, key) + Readings([line], key) + Readings(b, key)
  {
    ReadingsConcat(a + [line], b, key);
    ReadingsConcat(a, [line], key);
  }

  /** A value is in the readings exactly when some line reads as it. */
  lemma {:induction false} ReadingsAreLineValues(lines: seq<string>, key: string, v: string)
    ensures v in Readings(lines, key) <==> exists j :: 0 <= j < |lines| && LineValue(lines[j], key) == Some(v)
  {
    hide LineValue;
    if lines != [] {
      ReadingsAreLineValues(lines[1..], key, v);
      assert forall j :: 0 <= j < |lines[1..]| ==> lines[1..][j] == lines[j + 1];
      if exists j :: 0 <= j < |lines| && LineValue(lines[j], key) == Some(v) {
        var j :| 0 <= j < |lines| && LineValue(lines[j], key) == Some(v);
        if j > 0 {
          assert LineValue(lines[1..][j - 1], key) == Some(v);
        }
      }
    }
  }

  ghost predicate SomeNonEmpty(readings: seq<string>) {
    exists v :: v in readings && v != ""
  }

  lemma HasValueReadings(content: string, key: string)
    ensures HasValue(content, key) <==> SomeNonEmpty(Readings(Lines(content), key))
  {
    hide LineValue, Lines, Readings;
    var lines := Lines(content);
    if HasValue(content, key) {
      var line :| line in lines && LineValue(line, key).Some? && LineValue(line, key).value != "";
      var v := LineValue(line, key).value;
      var j :| 0 <= j < |lines| && lines[j] == line;
      assert LineValue(lines[j], key) == Some(v);
      ReadingsAreLineValues(lines, key, v);
      assert v in Readings(lines, key) && v != "";
    }
    if SomeNonEmpty(Readings(lines, key)) {
      var v :| v in Readings(lines, key) && v != "";
      ReadingsAreLineValues(lines, key, v);
      var j :| 0 <= j < |lines| && LineValue(lines[j], key) == Some(v);
      SetsValue(content, key, j);
    }
  }

  lemma SetsValue(content: string, key: string, j: nat)
    requires j < |Lines(content)|
    requires LineValue(Lines(content)[j], key).Some? && LineValue(Lines(content)[j], key).value != ""
    ensures HasValue(content, key)
  {
    hide LineValue, Lines;
    assert Lines(content)[j] in Lines(content);
  }

  // ---------- Editing twice ----------

  lemma {:induction false} TerminateEnds(lines: seq<string>, eol: string) returns (front: string)
    requires lines != []
    ensures Terminate(lines, eol) == front + lines[|lines| - 1] + eol
  {
    if |lines| == 1 {
      front := "";
      assert Terminate(lines, eol) == lines[0] + eol + Terminate([], eol);
    } else {
      front := TerminateEnds(lines[1..], eol);
      front := lines[0] + eol + front;
    }
  }

  lemma {:induction false} CRLFTerminated(lines: seq<string>, j: nat)
    requires j < |lines| && EndsCR(lines[j])
    ensures HasCRLF(Terminate(lines, "\n"))
  {
    hide HasCRLF;
    var rest := Terminate(lines[1..], "\n");
    assert Terminate(lines, "\n") == lines[0] + ['\n'] + rest;
    if j == 0 {
      CRLFAfterCR(lines[0], rest);
    } else {
      CRLFTerminated(lines[1..], j - 1);
      CRLFConcat(lines[0] + ['\n'], rest);
    }
  }

  lemma {:induction false} NoCRLFTerminated(lines: seq<string>)
    requires forall l :: l in lines ==> '\n' !in l && !EndsCR(l)
    ensures !HasCRLF(Terminate(lines, "\n"))
  {
    if lines != [] {
      var rest := Terminate(lines[1..], "\n");
      var s := Terminate(lines, "\n");
      assert s == lines[0] + ['\n'] + rest;
      NoCRLFTerminated(lines[1..]);
      forall i | 0 <= i < |s| - 1 ensures !(s[i] == '\r' && s[i + 1] == '\n') {
        assert lines[0] in lines;
        if i + 1 < |lines[0]| {
          assert s[i + 1] == lines[0][i + 1];
        } else if i > |lines[0]| {
          assert s[i] == rest[i - |lines[0]| - 1] && s[i + 1] == rest[i + 1 - |lines[0]| - 1];
        }
      }
    }
  }

  /** The line ending is a property the edited text passes on, unless a stray carriage return meets a line feed. */
  lemma EolAfterEdit(content: string, key: string, value: string)
    requires Quotable(value) && '\n' !in key
    ensures HasCRLF(Upserted(content, key, value)) <==> HasCRLF(content) || Stray(content, key)
  {
    hide HasCRLF, Lines, LineValue, Edited, FirstMatch;
    var edited := Edited(Lines(content), key, value);
    EditedLines(content, key, value);
    if HasCRLF(content) {
      var front := TerminateEnds(edited, "\r\n");
      CRLFIn(front + edited[|edited| - 1], "");
      assert front + edited[|edited| - 1] + "\r\n" + "" == front + edited[|edited| - 1] + "\r\n";
    } else {
      EditedEndsCR(content, key, value);
      if Stray(content, key) {
        EditedLonger(Lines(content), key, value);
        HasLines(content);
        CRLFTerminated(edited, |Lines(content)| - 1);
      } else {
        NoCRLFTerminated(edited);
      }
    }
  }

  lemma EditedLonger(lines: seq<string>, key: string, value: string)
    ensures |lines| <= |Edited(lines, key, value)|
  {
  }

  lemma EditedAgain(lines: seq<string>, key: string, value: string)
    requires PlainKey(key)
    ensures var edited := Edited(lines, key, value); Edited(edited, key, value) == edited
  {
    hide LineValue, PlainKey, NewLine;
    NewLineReads(key, value);
    var i := FirstMatch(lines, key);
    var edited := Edited(lines, key, value);
    FirstMatchIs(edited, key, i);
  }

  lemma FirstMatchIs(lines: seq<string>, key: string, i: nat)
    requires i < |lines| && LineValue(lines[i], key).Some?
    requires forall j :: 0 <= j < i ==> LineValue(lines[j], key) == None
    ensures FirstMatch(lines, key) == i
  {
    hide LineValue, FirstMatch;
    var k := FirstMatch(lines, key);
    assert k >= i;
  }

  /** A second identical edit returns the same text, byte for byte, exactly when no stray carriage return
      ended the first text. */
  lemma RepeatableIffNoStray(content: string, key: string, value: string)
    requires PlainKey(key) && Quotable(value)
    ensures Upserted(Upserted(content, key, value), key, value) == Upserted(content, key, value) <==> !Stray(content, key)
  {
    hide HasCRLF, Lines, LineValue, Edited, FirstMatch, PlainKey, Terminate;
    PlainKeyChars(key);
    LinesKeptIffNoStray(content, key, value);
    EolAfterEdit(content, key, value);
    EditedAgain(Lines(content), key, value);
    if Stray(content, key) {
      StrayTwice(content, key, value);
    }
  }

  lemma StrayTwice(content: string, key: string, value: string)
    requires PlainKey(key) && Quotable(value) && Stray(content, key)
    ensures Upserted(Upserted(content, key, value), key, value) != Upserted(content, key, value)
  {
    hide HasCRLF, Lines, LineValue, PlainKey, Terminate, NewLine, StripCR;
    PlainKeyChars(key);
    var lines := Lines(content);
    var i := FirstMatch(lines, key);
    var edited := Edited(lines, key, value);
    var once := Upserted(content, key, value);
    EditedLines(content, key, value);
    EolAfterEdit(content, key, value);
    NewLineReads(key, value);
    NewLineEnds(key, value);
    var again := Edited(Stripped(edited), key, value);
    forall j | 0 <= j < |edited| ensures LineValue(Stripped(edited)[j], key) == LineValue(edited[j], key) {
      StripReadsTheSame(edited[j], key);
    }
    FirstMatchIs(Stripped(edited), key, i);
    OnlyLastEndsCR(content);
    if i == |lines| {
      assert again[i] == NewLine(key, value) == edited[i];
      DifferentEnds(edited, again);
    } else {
      StripKeeps(edited[0]);
      assert again[0] == edited[0];
      DifferentStarts(edited, again);
    }
  }

  lemma StripKeeps(line: string)
    ensures !EndsCR(line) ==> StripCR(line) == line
  {
  }

  lemma DifferentEnds(a: seq<string>, b: seq<string>)
    requires a != [] && b != [] && a[|a| - 1] != "" && !EndsCR(a[|a| - 1])
    ensures Terminate(a, "\n") != Terminate(b, "\r\n")
  {
    hide Terminate;
    var x := TerminateEnds(a, "\n");
    var y := TerminateEnds(b, "\r\n");
    var s, t := Terminate(a, "\n"), Terminate(b, "\r\n");
    assert s[|s| - 2] == a[|a| - 1][|a[|a| - 1]| - 1];
    assert t[|t| - 2] == '\r';
  }

  lemma DifferentStarts(a: seq<string>, b: seq<string>)
    requires a != [] && b != [] && a[0] == b[0]
    ensures Terminate(a, "\n") != Terminate(b, "\r\n")
  {
    var s, t := Terminate(a, "\n"), Terminate(b, "\r\n");
    assert s[|a[0]|] == '\n' && t[|a[0]|] == '\r';
  }

  lemma OtherKeysLine(line: string)
    requires line != "" && line[0] == 'A'
    ensures LineValue(line, "B") == None
  {
    assert "export "[0] == 'e' && "B"[0] == 'B';
    PlainBody(line);
  }

  lemma OwnLine()
    ensures NewLine("B", "x") == "B='x'"
    ensures LineValue("B='x'", "B").Some?
  {
    hide LineValue, Trim;
    assert PlainKey("B") by {
      assert |"B"| < |"export "|;
    }
    NewLineReads("B", "x");
  }

  lemma LoneCR()
    ensures HasCRLF("A=1\r\nB='x'\n") && !HasCRLF("A=1\r") && EndsCR("A=1\r")
  {
    var once := "A=1\r\nB='x'\n";
    assert once[3] == '\r' && once[4] == '\n';
  }

  lemma TerminateTwo(a: string, b: string, eol: string)
    ensures Terminate([a, b], eol) == a + eol + b + eol
  {
    assert [a, b][1..] == [b] && [b][1..] == [];
    assert Terminate([b], eol) == b + eol;
    assert a + eol + (b + eol) == a + eol + b + eol;
  }

  lemma TwoLines()
    ensures Lines("A=1\r") == ["A=1\r"]
    ensures Lines("A=1\r\nB='x'\n") == ["A=1", "B='x'"]
  {
    hide Lines, StripCR;
    OneLine("A=1\r");
    var own := "B='x'" + ['\n'] + "";
    assert "A=1\r\nB='x'\n" == "A=1\r" + ['\n'] + own;
    FirstLine("A=1\r", own);
    FirstLine("B='x'", "");
    StripAdded("A=1");
    assert "A=1" + "\r" == "A=1\r";
    StripKeeps("B='x'");
    NoLines();
  }

  /** Such a text, and two identical edits of it: the first takes the carriage return from the last line, the
      second changes the ending of every line. */
  lemma StrayExample()
    ensures Stray("A=1\r", "B")
    ensures Upserted("A=1\r", "B", "x") == "A=1\r\nB='x'\n"
    ensures Lines("A=1\r\nB='x'\n") == ["A=1", "B='x'"]
    ensures Upserted("A=1\r\nB='x'\n", "B", "x") == "A=1\r\nB='x'\r\n"
  {
    hide LineValue, Lines, HasCRLF, Terminate, NewLine, FirstMatch;
    var own := "B='x'";
    OtherKeysLine("A=1\r");
    OtherKeysLine("A=1");
    OwnLine();
    LoneCR();
    TwoLines();
    assert FirstMatch(["A=1\r"], "B") == 1;
    FirstMatchIs(["A=1", own], "B", 1);
    assert Edited(["A=1\r"], "B", "x") == ["A=1\r", own];
    assert Edited(["A=1", own], "B", "x") == ["A=1", own];
    TerminateTwo("A=1\r", own, "\n");
    TerminateTwo("A=1", own, "\r\n");
  }
}
