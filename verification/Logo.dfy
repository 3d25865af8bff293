/** The dark copy of the logo: every occurrence of the ink color, in any letter case, becomes the dark
    theme's font color. */
module Logo {
  import opened Wrappers

  const LOGO_INK := "#1d1a1c"
  const FONT_COLOR_DARK := "#f8fafc"
  const N := 7

  function ToLower(c: char): char {
    if 'A' <= c <= 'Z' then c - 'A' + 'a' else c
  }

  function Lower(s: string): (l: string)
    ensures |l| == |s|
  {
    seq(|s|, i requires 0 <= i < |s| => ToLower(s[i]))
  }

  /** The ink color starts at `i`, in any letter case. */
  predicate Matches(svg: string, i: nat) {
    i + N <= |svg| && Lower(svg)[i..i + N] == LOGO_INK
  }

  /** The leftmost match at or after `from`. */
  function NextMatch(svg: string, from: nat): (m: Option<nat>)
    ensures m.None? ==> forall i :: from <= i ==> !Matches(svg, i)
    ensures m.Some? ==> from <= m.value && Matches(svg, m.value) && forall i :: from <= i < m.value ==> !Matches(svg, i)
    decreases |svg| - from
  {
    if from >= |svg| then None else if Matches(svg, from) then Some(from) else NextMatch(svg, from + 1)
  }

  ghost predicate Inked(svg: string, j: nat) {
    exists i: nat :: i <= j < i + N && Matches(svg, i)
  }

  /** `dark` is `svg` with every inked stretch, and nothing else, replaced. */
  ghost predicate IsDarkOf(dark: string, svg: string) {
    && |dark| == |svg|
    && (forall i: nat :: Matches(svg, i) ==> dark[i..i + N] == FONT_COLOR_DARK)
    && (forall j: nat :: j < |svg| && !Inked(svg, j) ==> dark[j] == svg[j])
  }

  datatype LogoError = NoInk

  lemma MatchesChars(s: string, i: nat)
    ensures Matches(s, i) <==> i + N <= |s| && forall p :: i <= p < i + N ==> ToLower(s[p]) == LOGO_INK[p - i]
  {
    if i + N <= |s| {
      var l := Lower(s)[i..i + N];
      assert forall p :: i <= p < i + N ==> ToLower(s[p]) == l[p - i];
      if forall p :: i <= p < i + N ==> ToLower(s[p]) == LOGO_INK[p - i] {
        forall d | 0 <= d < N ensures l[d] == LOGO_INK[d] {
          assert ToLower(s[i + d]) == LOGO_INK[i + d - i];
        }
      }
    }
  }

  /** The ink color's spellings: a hash sign, then `1d1a1c` with each letter in either case. */
  lemma MatchesSpelled(svg: string, i: nat)
    ensures Matches(svg, i) <==>
            && i + 7 <= |svg|
            && svg[i] == '#' && svg[i + 1] == '1' && (svg[i + 2] == 'd' || svg[i + 2] == 'D')
            && svg[i + 3] == '1' && (svg[i + 4] == 'a' || svg[i + 4] == 'A')
            && svg[i + 5] == '1' && (svg[i + 6] == 'c' || svg[i + 6] == 'C')
  {
    hide Matches;
    MatchesChars(svg, i);
    if i + 7 <= |svg| {
      forall d | 0 <= d < 7 ensures ToLower(svg[i + d]) == LOGO_INK[d] <==> svg[i + d] == LOGO_INK[d] || (LOGO_INK[d] >= 'a' && svg[i + d] == LOGO_INK[d] - 'a' + 'A') {
      }
      assert LOGO_INK == ['#', '1', 'd', '1', 'a', '1', 'c'];
      if forall d :: 0 <= d < 7 ==> ToLower(svg[i + d]) == LOGO_INK[d] {
        forall p | i <= p < i + N ensures ToLower(svg[p]) == LOGO_INK[p - i] {
          assert ToLower(svg[i + (p - i)]) == LOGO_INK[p - i];
        }
      }
    }
  }

  /** In both colors `#` is the first character and no other. */
  lemma HashFirst()
    ensures forall d :: 0 <= d < N ==> (LOGO_INK[d] == '#' <==> d == 0) && (FONT_COLOR_DARK[d] == '#' <==> d == 0)
  {
  }

  /** Two matches never overlap: the ink color has `#` at its start only. */
  lemma MatchesApart(svg: string, i: nat, k: nat)
    requires Matches(svg, i) && Matches(svg, k) && i < k
    ensures i + N <= k
  {
    hide Matches;
    HashFirst();
    MatchesChars(svg, i);
    MatchesChars(svg, k);
    assert ToLower(svg[k]) == LOGO_INK[k - k];
  }

  /** The part of `svg` before `last` is done: `out` is dark there. */
  ghost predicate DarkUpTo(out: string, svg: string, last: nat) {
    && |out| == last <= |svg|
    && (forall i: nat :: Matches(svg, i) && i < last ==> i + N <= last && out[i..i + N] == FONT_COLOR_DARK)
    && (forall j: nat :: j < last && !Inked(svg, j) ==> out[j] == svg[j])
  }

  lemma DarkStep(out: string, svg: string, last: nat, start: nat)
    requires DarkUpTo(out, svg, last)
    requires last <= start && Matches(svg, start)
    requires forall i :: last <= i < start ==> !Matches(svg, i)
    ensures DarkUpTo(out + svg[last..start] + FONT_COLOR_DARK, svg, start + N)
  {
    hide Matches;
    MatchFits(svg, start);
    var more := out + svg[last..start] + FONT_COLOR_DARK;
    forall i: nat | Matches(svg, i) && i < start + N
      ensures i + N <= start + N && more[i..i + N] == FONT_COLOR_DARK
    {
      if i > start {
        MatchesApart(svg, start, i);
      } else if i < start {
        assert more[i..i + N] == out[i..i + N];
      } else {
        assert more[start..start + N] == FONT_COLOR_DARK;
      }
    }
    forall j: nat | j < start + N && !Inked(svg, j) ensures more[j] == svg[j] {
    }
  }

  lemma MatchFits(svg: string, i: nat)
    requires Matches(svg, i)
    ensures i + N <= |svg|
  {
  }

  lemma DarkRest(out: string, svg: string, last: nat)
    requires DarkUpTo(out, svg, last)
    requires forall i :: last <= i ==> !Matches(svg, i)
    ensures IsDarkOf(out + svg[last..], svg)
  {
    hide Matches;
    var dark := out + svg[last..];
    forall i: nat | Matches(svg, i) ensures i + N <= |svg| && dark[i..i + N] == FONT_COLOR_DARK {
      assert dark[i..i + N] == out[i..i + N];
    }
  }

  method DarkLogo(svg: string) returns (r: Result<string, LogoError>)
    ensures r.Err? <==> forall i: nat :: !Matches(svg, i)
    ensures r.Ok? ==> IsDarkOf(r.value, svg)
  {
    hide Matches, Inked;
    var found := NextMatch(svg, 0);
    if found.None? {
      return Err(NoInk);
    }
    var out := "";
    var last := 0;
    while found.Some?
      invariant DarkUpTo(out, svg, last)
      invariant found == NextMatch(svg, last)
      decreases |svg| - last
    {
      var start := found.value;
      MatchFits(svg, start);
      DarkStep(out, svg, last, start);
      out := out + svg[last..start] + FONT_COLOR_DARK;
      last := start + N;
      found := NextMatch(svg, last);
    }
    DarkRest(out, svg, last);
    return Ok(out + svg[last..]);
  }

  lemma DarkAt(dark: string, svg: string, m: nat)
    requires IsDarkOf(dark, svg) && Matches(svg, m)
    ensures m + N <= |dark|
    ensures forall p :: m <= p < m + N ==> dark[p] == FONT_COLOR_DARK[p - m]
  {
    hide Matches;
    MatchFits(svg, m);
    var part := dark[m..m + N];
    assert forall p :: m <= p < m + N ==> dark[p] == part[p - m];
  }

  /** The dark logo holds no ink in any letter case, so a second application is refused. */
  lemma DarkHasNoInk(dark: string, svg: string, i: nat)
    requires IsDarkOf(dark, svg)
    ensures !Matches(dark, i)
  {
    hide Matches, IsDarkOf;
    MatchesChars(dark, i);
    if i + N <= |dark| {
      HashFirst();
      if m: nat :| m <= i < m + N && Matches(svg, m) {
        DarkAt(dark, svg, m);
        assert dark[i] == FONT_COLOR_DARK[i - m];
        assert m == i ==> dark[i + 1] == FONT_COLOR_DARK[1];
        assert ToLower(dark[i]) != LOGO_INK[i - i] || ToLower(dark[i + 1]) != LOGO_INK[i + 1 - i];
      } else if m: nat :| i < m < i + N && Matches(svg, m) {
        DarkAt(dark, svg, m);
        assert dark[m] == FONT_COLOR_DARK[m - m];
        assert ToLower(dark[m]) != LOGO_INK[m - i];
      } else {
        KeptWindow(dark, svg, i);
      }
    }
  }

  lemma KeptWindow(dark: string, svg: string, i: nat)
    requires IsDarkOf(dark, svg) && i + N <= |dark|
    requires forall m: nat :: m < i + N && i < m + N ==> !Matches(svg, m)
    ensures !Matches(dark, i)
  {
    hide Matches;
    assert forall p: nat :: i <= p < i + N ==> !Inked(svg, p);
    MatchesChars(dark, i);
    MatchesChars(svg, i);
  }
}
