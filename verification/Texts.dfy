/** Text operations the sources share: trimming by a whitespace test, splitting on one character and
    joining with a separator. */
module Texts {

  ghost predicate AllOf(s: string, p: char -> bool) {
    forall i :: 0 <= i < |s| ==> p(s[i])
  }

  /** Unicode white space, as Rust's `char::is_whitespace` has it. */
  predicate IsWhiteSpace(c: char) {
    || '\t' <= c <= '\r' || c == ' ' || c == '\U{0085}' || c == '\U{00A0}' || c == '\U{1680}'
    || '\U{2000}' <= c <= '\U{200A}' || c == '\U{2028}' || c == '\U{2029}'
    || c == '\U{202F}' || c == '\U{205F}' || c == '\U{3000}'
  }

  /** The 25 characters with the Unicode property White_Space, one by one. */
  lemma WhiteSpaceListed(c: char)
    ensures IsWhiteSpace(c) <==>
            c as int in {0x9, 0xA, 0xB, 0xC, 0xD, 0x20, 0x85, 0xA0, 0x1680, 0x2000, 0x2001, 0x2002, 0x2003, 0x2004, 0x2005,
                         0x2006, 0x2007, 0x2008, 0x2009, 0x200A, 0x2028, 0x2029, 0x202F, 0x205F, 0x3000}
  {
  }

  function TrimStart(s: string, space: char -> bool): (r: string)
    ensures |r| <= |s|
    ensures r != "" ==> !space(r[0])
  {
    if s != "" && space(s[0]) then TrimStart(s[1..], space) else s
  }

  function TrimEnd(s: string, space: char -> bool): (r: string)
    ensures r <= s
    ensures r != "" ==> !space(r[|r| - 1])
  {
    if s != "" && space(s[|s| - 1]) then TrimEnd(s[..|s| - 1], space) else s
  }

  function Trim(s: string, space: char -> bool): (r: string)
    ensures |r| <= |s|
    ensures r != "" ==> !space(r[0]) && !space(r[|r| - 1])
  {
    TrimEnd(TrimStart(s, space), space)
  }

  ghost predicate Tight(s: string, space: char -> bool) {
    s != "" && !space(s[0]) && !space(s[|s| - 1])
  }

  lemma {:induction false} TrimStartPad(a: string, s: string, space: char -> bool)
    requires AllOf(a, space)
    ensures TrimStart(a + s, space) == TrimStart(s, space)
  {
    if a == "" {
      assert a + s == s;
    } else {
      assert (a + s)[1..] == a[1..] + s;
      TrimStartPad(a[1..], s, space);
    }
  }

  lemma {:induction false} TrimEndPad(s: string, b: string, space: char -> bool)
    requires AllOf(b, space)
    ensures TrimEnd(s + b, space) == TrimEnd(s, space)
    decreases |b|
  {
    if b == "" {
      assert s + b == s;
    } else {
      assert (s + b)[..|s + b| - 1] == s + b[..|b| - 1];
      TrimEndPad(s, b[..|b| - 1], space);
    }
  }

  lemma {:induction false} TrimStartSplits(s: string, space: char -> bool) returns (pad: string)
    ensures AllOf(pad, space) && s == pad + TrimStart(s, space)
  {
    if s == "" || !space(s[0]) {
      pad := "";
    } else {
      pad := TrimStartSplits(s[1..], space);
      pad := [s[0]] + pad;
    }
  }

  lemma TrimStartKeeps(s: string, space: char -> bool)
    requires s == "" || !space(s[0])
    ensures TrimStart(s, space) == s
  {
  }

  lemma TrimEndKeeps(s: string, space: char -> bool)
    requires s == "" || !space(s[|s| - 1])
    ensures TrimEnd(s, space) == s
  {
  }

  /** Trimming removes exactly the padding around a text that neither starts nor ends with whitespace. */
  lemma TrimPad(a: string, s: string, b: string, space: char -> bool)
    requires AllOf(a, space) && AllOf(b, space)
    requires Tight(s, space)
    ensures Trim(a + s + b, space) == s
  {
    hide TrimStart, TrimEnd, AllOf;
    assert a + s + b == a + (s + b);
    TrimStartPad(a, s + b, space);
    TrimStartKeeps(s + b, space);
    TrimEndPad(s, b, space);
    TrimEndKeeps(s, space);
  }

  lemma {:induction false} TrimStartBefore(s: string, b: string, space: char -> bool)
    requires AllOf(b, space)
    ensures TrimStart(s + b, space) == if TrimStart(s, space) == "" then "" else TrimStart(s, space) + b
  {
    if s == "" {
      assert s + b == b;
      assert b + "" == b;
      TrimStartPad(b, "", space);
    } else {
      assert (s + b)[1..] == s[1..] + b;
      TrimStartBefore(s[1..], b, space);
    }
  }

  /** Padding around any text disappears in its trimmed form. */
  lemma TrimAround(a: string, s: string, b: string, space: char -> bool)
    requires AllOf(a, space) && AllOf(b, space)
    ensures Trim(a + s + b, space) == Trim(s, space)
  {
    hide TrimStart, TrimEnd, AllOf;
    assert a + s + b == a + (s + b);
    TrimStartPad(a, s + b, space);
    TrimEndKeeps("", space);
    TrimStartBefore(s, b, space);
    TrimEndPad(TrimStart(s, space), b, space);
  }

  // ---------- Split and join ----------

  function IndexOf(s: string, c: char): (i: nat)
    ensures i <= |s|
    ensures c !in s[..i]
    ensures i < |s| ==> s[i] == c
  {
    if s == "" || s[0] == c then 0
    else
      var i := 1 + IndexOf(s[1..], c);
      assert s[..i] == [s[0]] + s[1..][..i - 1];
      i
  }

  /** The parts between separators; a text without a separator is one part. */
  function Split(s: string, c: char): (parts: seq<string>)
    ensures parts != []
    ensures forall p :: p in parts ==> c !in p
    decreases |s|
  {
    var i := IndexOf(s, c);
    if i == |s| then [s] else [s[..i]] + Split(s[i + 1..], c)
  }

  function Join(parts: seq<string>, separator: string): string {
    if parts == [] then ""
    else if |parts| == 1 then parts[0]
    else parts[0] + separator + Join(parts[1..], separator)
  }

  lemma {:induction false} IndexOfAt(a: string, b: string, c: char)
    requires c !in a
    ensures IndexOf(a + [c] + b, c) == |a|
  {
    if a != "" {
      assert (a + [c] + b)[1..] == a[1..] + [c] + b;
      IndexOfAt(a[1..], b, c);
    }
  }

  lemma {:induction false} IndexOfNone(a: string, c: char)
    requires c !in a
    ensures IndexOf(a, c) == |a|
  {
    if a != "" {
      IndexOfNone(a[1..], c);
    }
  }

  lemma {:induction false} SplitFirst(a: string, b: string, c: char)
    requires c !in a
    ensures Split(a + [c] + b, c) == [a] + Split(b, c)
  {
    IndexOfAt(a, b, c);
    assert (a + [c] + b)[..|a|] == a;
    assert (a + [c] + b)[|a| + 1..] == b;
  }

  lemma SplitNone(a: string, c: char)
    requires c !in a
    ensures Split(a, c) == [a]
  {
    IndexOfNone(a, c);
  }

  /** Splitting undoes joining when no part holds the separator. */
  lemma {:induction false} SplitJoin(parts: seq<string>, c: char)
    requires parts != []
    requires forall p :: p in parts ==> c !in p
    ensures Split(Join(parts, [c]), c) == parts
  {
    if |parts| == 1 {
      SplitNone(parts[0], c);
    } else {
      SplitFirst(parts[0], Join(parts[1..], [c]), c);
      SplitJoin(parts[1..], c);
      assert parts == [parts[0]] + parts[1..];
    }
  }

  /** Two texts around a separator split into the parts of the first, then those of the second. */
  lemma {:induction false} SplitConcat(a: string, b: string, c: char)
    ensures Split(a + [c] + b, c) == Split(a, c) + Split(b, c)
    decreases |a|
  {
    hide Split;
    var i := IndexOf(a, c);
    if i == |a| {
      assert a[..i] == a;
      SplitNone(a, c);
      SplitFirst(a, b, c);
    } else {
      var x, y := a[..i], a[i + 1..];
      assert a + [c] + b == x + [c] + (y + [c] + b);
      assert a == x + [c] + y;
      SplitFirst(x, y, c);
      SplitFirst(x, y + [c] + b, c);
      SplitConcat(y, b, c);
      assert [x] + (Split(y, c) + Split(b, c)) == [x] + Split(y, c) + Split(b, c);
    }
  }
}
