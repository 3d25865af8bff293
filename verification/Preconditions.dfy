/** `If-Match` over strong entity tags `"v{n}"`. */
module Preconditions {
  import opened Wrappers
  import opened Texts

  type i64 = x: int | -0x8000_0000_0000_0000 <= x < 0x8000_0000_0000_0000

  datatype ApiError = PreconditionRequired | VersionConflict

  // ---------- Decimal numbers ----------

  function Digit(d: nat): char
    requires d < 10
  {
    '0' + d as char
  }

  function Digits(n: nat): (s: string)
    ensures s != ""
    ensures forall i :: 0 <= i < |s| ==> '0' <= s[i] <= '9'
  {
    if n < 10 then [Digit(n)] else Digits(n / 10) + [Digit(n % 10)]
  }

  /** The number a run of digits denotes. */
  function ValueOf(s: string): int {
    if s == "" then 0 else ValueOf(s[..|s| - 1]) * 10 + (s[|s| - 1] as int - '0' as int)
  }

  lemma {:induction false} ValueOfDigits(n: nat)
    ensures ValueOf(Digits(n)) == n
  {
    if n < 10 {
      assert [Digit(n)][..0] == "";
    } else {
      ValueOfDigits(n / 10);
      assert Digits(n)[..|Digits(n)| - 1] == Digits(n / 10);
    }
  }

  function Decimal(n: int): string {
    if n < 0 then "-" + Digits(-n) else Digits(n)
  }

  /** Different numbers are written differently. */
  lemma DecimalInjective(m: int, n: int)
    ensures Decimal(m) == Decimal(n) <==> m == n
  {
    var x, y := Decimal(m), Decimal(n);
    if x == y {
      ValueOfDigits(if m < 0 then -m else m);
      ValueOfDigits(if n < 0 then -n else n);
      assert m < 0 <==> x[0] == '-';
      assert n < 0 <==> y[0] == '-';
      assert m < 0 ==> x[1..] == Digits(-m);
      assert n < 0 ==> y[1..] == Digits(-n);
    }
  }

  // ---------- Tags and the check ----------

  /** The strong tag of a version. */
  function Tag(version: i64): string {
    "\"v" + Decimal(version) + "\""
  }

  /** A header value reads as text when it is visible ASCII. */
  predicate IsVisible(c: char) {
    ' ' <= c < '\U{007F}' || c == '\t'
  }

  predicate Names(value: string, version: i64) {
    && (forall i :: 0 <= i < |value| ==> IsVisible(value[i]))
    && (Trim(value, IsWhiteSpace) == "*"
        || exists part :: part in Split(value, ',') && Trim(part, IsWhiteSpace) == Tag(version))
  }

  function CheckIfMatch(header: Option<string>, current: i64): Result<(), ApiError> {
    if header.None? then Err(PreconditionRequired)
    else if Names(header.value, current) then Ok(()) else Err(VersionConflict)
  }

  // ---------- Headers that list tags ----------

  datatype Entry = Strong(version: i64) | Weak(version: i64)

  function EntryText(e: Entry): string {
    match e
    case Strong(v) => Tag(v)
    case Weak(v) => "W/" + Tag(v)
  }

  /** Optional whitespace of a list (section 5.6.1 of RFC 9110). */
  predicate IsOws(c: char) {
    c == ' ' || c == '\t'
  }

  /** An entry with the whitespace around it. */
  datatype Item = Item(before: string, entry: Entry, after: string) {
    ghost predicate Spaced() {
      AllOf(before, IsOws) && AllOf(after, IsOws)
    }

    function Text(): string {
      before + EntryText(entry) + after
    }
  }

  function Parts(items: seq<Item>): seq<string> {
    seq(|items|, i requires 0 <= i < |items| => items[i].Text())
  }

  predicate IsTagChar(c: char) {
    c == '"' || c == 'v' || c == '-' || '0' <= c <= '9' || c == 'W' || c == '/'
  }

  lemma EntryChars(e: Entry)
    ensures AllOf(EntryText(e), IsTagChar)
    ensures Tight(EntryText(e), IsWhiteSpace)
  {
    assert AllOf(Decimal(e.version), IsTagChar);
  }

  lemma TagsDiffer(e: Entry, current: i64)
    ensures EntryText(e) == Tag(current) <==> e == Strong(current)
  {
    match e
    case Strong(v) =>
      DecimalInjective(v, current);
      if Tag(v) == Tag(current) {
        assert Decimal(v) == Tag(v)[2..|Tag(v)| - 1];
        assert Decimal(current) == Tag(current)[2..|Tag(current)| - 1];
      }
    case Weak(v) => assert EntryText(e)[0] == 'W' && Tag(current)[0] == '"';
  }

  predicate IsListChar(c: char) {
    IsTagChar(c) || IsOws(c) || c == ','
  }

  lemma {:induction false} JoinChars(parts: seq<string>, p: char -> bool)
    requires forall i :: 0 <= i < |parts| ==> AllOf(parts[i], p)
    requires p(',')
    ensures AllOf(Join(parts, ","), p)
  {
    if |parts| > 1 {
      JoinChars(parts[1..], p);
    }
  }

  lemma {:induction false} TrimInside(s: string, c: char)
    requires c !in s
    ensures c !in Trim(s, IsWhiteSpace)
  {
    TrimStartInside(s, c);
    var t := TrimStart(s, IsWhiteSpace);
    assert TrimEnd(t, IsWhiteSpace) <= t;
  }

  lemma {:induction false} TrimStartInside(s: string, c: char)
    requires c !in s
    ensures c !in TrimStart(s, IsWhiteSpace)
  {
    if s != "" {
      TrimStartInside(s[1..], c);
    }
  }

  /** A rendered tag is always a valid header value, so the fallback to version zero is never taken, and
      different versions have different tags. */
  lemma TagsAreHeaderValues(m: i64, n: i64)
    ensures forall i :: 0 <= i < |Tag(m)| ==> IsVisible(Tag(m)[i])
    ensures Tag(m) == Tag(n) <==> m == n
  {
    EntryChars(Strong(m));
    TagsDiffer(Strong(m), n);
    assert AllOf(Tag(m), IsTagChar);
  }

  /** A header that lists tags, each with any whitespace around it, passes exactly when the strong tag of the
      current version is among them. Weak tags never match (sections 8.8.3.2 and 13.1.1 of RFC 9110). */
  lemma ListedIffPasses(items: seq<Item>, current: i64)
    requires forall i :: 0 <= i < |items| ==> items[i].Spaced()
    ensures CheckIfMatch(Some(Join(Parts(items), ",")), current) ==
            if exists i :: 0 <= i < |items| && items[i].entry == Strong(current) then Ok(()) else Err(VersionConflict)
  {
    hide Tag, EntryText, Trim, Join, Split, Item.Text, Item.Spaced;
    var parts := Parts(items);
    var header := Join(parts, ",");
    forall i | 0 <= i < |items|
      ensures AllOf(parts[i], IsListChar) && ',' !in parts[i]
      ensures Trim(parts[i], IsWhiteSpace) == Tag(current) <==> items[i].entry == Strong(current)
    {
      PartFacts(items[i], current);
    }
    JoinChars(parts, IsListChar);
    assert '*' !in header;
    TrimInside(header, '*');
    assert Trim(header, IsWhiteSpace) != "*";
    if items == [] {
      NoEntries(current);
    } else {
      SplitJoin(parts, ',');
      if i :| 0 <= i < |items| && items[i].entry == Strong(current) {
        assert parts[i] in Split(header, ',');
      }
    }
  }

  lemma NoEntries(current: i64)
    ensures Join([], ",") == "" && !Names("", current)
  {
    SplitNone("", ',');
    assert Trim("", IsWhiteSpace) == "";
    assert Split("", ',') == [""];
  }

  lemma PartFacts(item: Item, current: i64)
    requires item.Spaced()
    ensures var part := item.Text();
            && AllOf(part, IsListChar) && ',' !in part
            && (Trim(part, IsWhiteSpace) == Tag(current) <==> item.entry == Strong(current))
  {
    hide Tag, EntryText;
    EntryChars(item.entry);
    TagsDiffer(item.entry, current);
    TrimPad(item.before, EntryText(item.entry), item.after, IsWhiteSpace);
    CommaFree(item.before, EntryText(item.entry), item.after);
  }

  lemma CommaFree(before: string, text: string, after: string)
    requires AllOf(before, IsOws) && AllOf(after, IsOws) && AllOf(text, IsTagChar)
    ensures AllOf(before + text + after, IsListChar) && ',' !in before + text + after
  {
    var part := before + text + after;
    forall i | 0 <= i < |part| ensures IsListChar(part[i]) && part[i] != ',' {
      assert part[i] == if i < |before| then before[i]
                        else if i < |before| + |text| then text[i - |before|]
                        else after[i - |before| - |text|];
    }
  }

  // ---------- Every other header ----------

  /** Without the header the check asks for it; a star, with any whitespace around it, stands for any version. */
  lemma MissingOrStar(current: i64, before: string, after: string)
    requires AllOf(before, IsOws) && AllOf(after, IsOws)
    ensures CheckIfMatch(None, current) == Err(PreconditionRequired)
    ensures CheckIfMatch(Some(before + "*" + after), current) == Ok(())
  {
    hide Trim;
    var value := before + "*" + after;
    TrimPad(before, "*", after, IsWhiteSpace);
    forall i | 0 <= i < |value| ensures IsVisible(value[i]) {
      assert value[i] == if i < |before| then before[i] else if i == |before| then '*' else after[i - |before| - 1];
    }
  }

  /** A header with a character that is neither visible ASCII, a space nor a tab names no version. */
  lemma UnreadableConflicts(value: string, current: i64, i: nat)
    requires i < |value| && value[i] != '\t' && !(' ' <= value[i] <= '~')
    ensures CheckIfMatch(Some(value), current) == Err(VersionConflict)
  {
    assert !IsVisible(value[i]);
  }

  /** Anything else passes exactly when, trimmed, it is a star or a part of it between commas is the tag. */
  lemma PassesIff(value: string, current: i64)
    requires forall i :: 0 <= i < |value| ==> value[i] == '\t' || ' ' <= value[i] <= '~'
    ensures CheckIfMatch(Some(value), current) in {Ok(()), Err(VersionConflict)}
    ensures CheckIfMatch(Some(value), current) == Ok(()) <==>
            Trim(value, IsWhiteSpace) == "*" || exists part :: part in Split(value, ',') && Trim(part, IsWhiteSpace) == Tag(current)
  {
    hide Trim, Split, Tag;
  }

  /** A tag is a quoted `v` and a number: a minus sign for a negative one, then its decimal digits. */
  lemma TagSpelled(version: i64)
    ensures exists digits :: Tag(version) == "\"v" + (if version < 0 then "-" else "") + digits + "\""
                             && (forall i :: 0 <= i < |digits| ==> '0' <= digits[i] <= '9')
                             && (if version < 0 then -ValueOf(digits) else ValueOf(digits)) == version
                             && (digits == "0" || (digits != "" && digits[0] != '0'))
  {
    var v: int := version;
    var n: nat := if v < 0 then -v else v;
    var digits := Digits(n);
    hide Digits, ValueOf;
    ValueOfDigits(n);
    NoLeadingZero(n);
    assert Tag(version) == "\"v" + (if version < 0 then "-" else "") + digits + "\"";
  }

  lemma {:induction false} NoLeadingZero(n: nat)
    ensures n == 0 ==> Digits(n) == "0"
    ensures n > 0 ==> Digits(n)[0] != '0'
  {
    if n >= 10 {
      NoLeadingZero(n / 10);
    }
  }
}
