/** The template expression evaluator: a recursive parser over substrings, driven by depth counters.

    `Eval` is the evaluator. The loops that find its cuts (`WrapsLoop`, `SplitLoop`, `WalkLoop`) are
    proved against declarative definitions, and `Evaluate` strings them together. `Print` writes an
    expression tree, with comparisons in parentheses where they are operands, and `Meaning` is the tree's
    value; `EvalPrint` connects the two. */
module Evaluator {
  import opened Wrappers
  import opened Texts

  // ---------- Values ----------

  /** A JavaScript value. Numbers and objects are known by identity only. */
  datatype Value = Undefined | Null | Bool(b: bool) | Number(n: int) | Text(s: string) | Object(id: int)

  /** What the JavaScript engine supplies. */
  datatype Host = Host(
    member: (Value, Value) -> Value,      // a property of a value that is not null or undefined
    parse: string -> int,                 // the number a decimal literal denotes
    sameNumber: (int, int) -> bool,       // === on numbers
    zeroOrNaN: int -> bool,
    coerced: (Value, Value) -> bool       // == between values of different types, neither null nor undefined
  )

  predicate Nullish(v: Value) {
    v.Undefined? || v.Null?
  }

  predicate Falsy(h: Host, v: Value) {
    match v
    case Undefined => true
    case Null => true
    case Bool(b) => !b
    case Number(n) => h.zeroOrNaN(n)
    case Text(s) => s == ""
    case Object(_) => false
  }

  /** `r?.[key]` */
  function Member(h: Host, r: Value, key: Value): Value {
    if Nullish(r) then Undefined else h.member(r, key)
  }

  predicate StrictEqual(h: Host, a: Value, b: Value) {
    if a.Number? && b.Number? then h.sameNumber(a.n, b.n) else a == b
  }

  predicate SameType(a: Value, b: Value) {
    || (a.Bool? && b.Bool?) || (a.Number? && b.Number?) || (a.Text? && b.Text?) || (a.Object? && b.Object?)
  }

  predicate LooseEqual(h: Host, a: Value, b: Value) {
    if Nullish(a) || Nullish(b) then Nullish(a) && Nullish(b)
    else if SameType(a, b) then StrictEqual(h, a, b)
    else h.coerced(a, b)
  }

  datatype Op = Same | NotSame | Alike | NotAlike {
    function Text(): string {
      match this
      case Same => "==="
      case NotSame => "!=="
      case Alike => "=="
      case NotAlike => "!="
    }

    function Apply(h: Host, a: Value, b: Value): Value {
      match this
      case Same => Bool(StrictEqual(h, a, b))
      case NotSame => Bool(!StrictEqual(h, a, b))
      case Alike => Bool(LooseEqual(h, a, b))
      case NotAlike => Bool(!LooseEqual(h, a, b))
    }
  }

  // ---------- Characters ----------

  /** What `String.prototype.trim` removes. */
  predicate IsSpace(c: char) {
    || '\t' <= c <= '\r' || c == ' ' || c == '\U{00A0}' || c == '\U{1680}' || c == '\U{2028}' || c == '\U{2029}'
    || c == '\U{202F}' || c == '\U{205F}' || c == '\U{3000}' || c == '\U{FEFF}'
    || '\U{2000}' <= c <= '\U{200A}'
  }

  predicate IsDigit(c: char) { '0' <= c <= '9' }

  predicate IsNameStart(c: char) {
    'A' <= c <= 'Z' || 'a' <= c <= 'z' || c == '_' || c == '$'
  }

  predicate IsNameChar(c: char) {
    IsNameStart(c) || IsDigit(c)
  }

  /** How many leading characters satisfy `p`. */
  function Run(s: string, p: char -> bool): (n: nat)
    ensures n <= |s|
    ensures AllOf(s[..n], p)
    ensures n < |s| ==> !p(s[n])
  {
    if s != "" && p(s[0]) then
      var n := 1 + Run(s[1..], p);
      assert s[..n] == [s[0]] + s[1..][..n - 1];
      n
    else 0
  }

  function NameLength(s: string): (n: nat)
    ensures n <= |s|
  {
    if s != "" && IsNameStart(s[0]) then Run(s, IsNameChar) else 0
  }

  predicate IsDecimal(s: string) {
    var t := if s != "" && s[0] == '-' then s[1..] else s;
    var k := Run(t, IsDigit);
    && k > 0
    && (k < |t| ==> t[k] == '.' && k + 1 < |t| && Run(t[k + 1..], IsDigit) == |t| - k - 1)
  }

  // ---------- Depth ----------

  datatype Brackets = Round | Square | Both

  function Weight(kind: Brackets, c: char): int {
    if c == '(' && kind != Square then 1
    else if c == ')' && kind != Square then -1
    else if c == '[' && kind != Round then 1
    else if c == ']' && kind != Round then -1
    else 0
  }

  function Depth(kind: Brackets, s: string): int {
    if s == "" then 0 else Depth(kind, s[..|s| - 1]) + Weight(kind, s[|s| - 1])
  }

  /** The opening parenthesis of `t` closes only at its end. */
  ghost predicate Wraps(t: string) {
    forall i :: 0 <= i < |t| - 1 && t[i] == ')' ==> Depth(Round, t[..i + 1]) != 0
  }

  /** An equality operator starts at `i`, outside all brackets, not inside an operator, after some operand. */
  ghost predicate IsSplit(t: string, i: nat) {
    && i + 1 < |t|
    && (t[i] == '=' || t[i] == '!') && t[i + 1] == '='
    && Depth(Both, t[..i]) == 0
    && !(i > 0 && (t[i - 1] == '=' || t[i - 1] == '!'))
    && Trim(t[..i], IsSpace) != ""
  }

  ghost function SplitFrom(t: string, i: nat): (r: Option<nat>)
    ensures r.None? ==> forall j :: i <= j < |t| ==> !IsSplit(t, j)
    ensures r.Some? ==> i <= r.value < |t| && IsSplit(t, r.value) && forall j :: i <= j < r.value ==> !IsSplit(t, j)
    decreases |t| - i
  {
    if i >= |t| then None else if IsSplit(t, i) then Some(i) else SplitFrom(t, i + 1)
  }

  function OpAt(t: string, i: nat): (op: Op)
    requires i + 1 < |t|
    ensures t[i + 1] == '=' ==> i + |op.Text()| <= |t|
  {
    if i + 2 < |t| && t[i + 2] == '=' then if t[i] == '=' then Same else NotSame
    else if t[i] == '=' then Alike else NotAlike
  }

  /** The bracket that closes the one at `o`. */
  ghost predicate Closes(t: string, o: nat, i: nat) {
    o < i < |t| && t[i] == ']' && Depth(Square, t[o + 1..i + 1]) == -1
  }

  ghost function CloseFrom(t: string, o: nat, i: nat): (r: Option<nat>)
    requires o < i
    ensures r.None? ==> forall j :: i <= j < |t| ==> !Closes(t, o, j)
    ensures r.Some? ==> i <= r.value < |t| && Closes(t, o, r.value) && forall j :: i <= j < r.value ==> !Closes(t, o, j)
    decreases |t| - i
  {
    if i >= |t| then None else if Closes(t, o, i) then Some(i) else CloseFrom(t, o, i + 1)
  }

  // ---------- The evaluator ----------

  ghost function Eval(h: Host, scope: Value, text: string): Value
    decreases |text|, 3
  {
    var e := Trim(text, IsSpace);
    if e == "" then Undefined
    else if e[0] == '(' && e[|e| - 1] == ')' && Wraps(e) then Eval(h, scope, e[1..|e| - 1])
    else match SplitFrom(e, 0)
      case Some(i) =>
        var op := OpAt(e, i);
        op.Apply(h, Eval(h, scope, e[..i]), Eval(h, scope, e[i + |op.Text()|..]))
      case None =>
        if e[0] == '!' then Bool(Falsy(h, Eval(h, scope, e[1..]))) else Leaf(h, scope, e)
  }

  ghost function Leaf(h: Host, scope: Value, e: string): Value
    decreases |e|, 2
  {
    if e == "true" then Bool(true)
    else if e == "false" then Bool(false)
    else if e == "null" then Null
    else if e == "undefined" then Undefined
    else if IsDecimal(e) then Number(h.parse(e))
    else if |e| >= 2 && e[0] in {'"', '\''} && e[|e| - 1] == e[0] then Text(e[1..|e| - 1])
    else Path(h, scope, e)
  }

  ghost function Path(h: Host, scope: Value, e: string): Value
    decreases |e|, 1
  {
    var n := NameLength(e);
    if n == 0 then Undefined else Walk(h, scope, Member(h, scope, Text(e[..n])), e, n)
  }

  /** The length of the step name after a dot: a name, or else digits. */
  function StepLength(s: string): (n: nat)
    ensures n <= |s|
  {
    if NameLength(s) > 0 then NameLength(s) else Run(s, IsDigit)
  }

  ghost function Walk(h: Host, scope: Value, r: Value, e: string, o: nat): Value
    requires 0 < o <= |e|
    decreases |e|, 0, |e| - o
  {
    if o == |e| then r
    else if e[o] == '.' then
      var n := StepLength(e[o + 1..]);
      if n == 0 then Undefined
      else Walk(h, scope, Member(h, r, Text(e[o + 1..o + 1 + n])), e, o + 1 + n)
    else if e[o] == '[' then
      match CloseFrom(e, o, o + 1)
      case None => Undefined
      case Some(i) => Walk(h, scope, Member(h, r, Eval(h, scope, e[o + 1..i])), e, i + 1)
    else Undefined
  }

  // ---------- Its loops ----------

  lemma DepthStep(kind: Brackets, t: string, i: nat)
    requires i < |t|
    ensures Depth(kind, t[..i + 1]) == Depth(kind, t[..i]) + Weight(kind, t[i])
  {
    assert t[..i + 1][..i] == t[..i];
  }

  method WrapsLoop(t: string) returns (wraps: bool)
    ensures wraps == Wraps(t)
  {
    var n := 0;
    var e := 0;
    while e < |t| - 1
      invariant 0 <= e <= |t|
      invariant n == Depth(Round, t[..e])
      invariant forall i :: 0 <= i < e && t[i] == ')' ==> Depth(Round, t[..i + 1]) != 0
    {
      DepthStep(Round, t, e);
      if t[e] == '(' {
        n := n + 1;
      } else if t[e] == ')' {
        n := n - 1;
        if n == 0 {
          return false;
        }
      }
      e := e + 1;
    }
    return true;
  }

  method SplitLoop(t: string) returns (split: Option<nat>)
    ensures split == SplitFrom(t, 0)
    ensures split.Some? ==> split.value + 1 < |t| && t[split.value + 1] == '='
  {
    var n := 0;
    var e := 0;
    while e < |t|
      invariant 0 <= e <= |t|
      invariant n == Depth(Both, t[..e])
      invariant SplitFrom(t, 0) == SplitFrom(t, e)
    {
      DepthStep(Both, t, e);
      var r := t[e];
      if r == '[' || r == '(' {
        n := n + 1;
      } else if r == ']' || r == ')' {
        n := n - 1;
      } else if n == 0 && (r == '=' || r == '!') && e + 1 < |t| && t[e + 1] == '=' {
        if (e > 0 && (t[e - 1] == '=' || t[e - 1] == '!')) || Trim(t[..e], IsSpace) == "" {
          e := e + 1;
          continue;
        }
        return Some(e);
      }
      e := e + 1;
    }
    return None;
  }

  method CloseLoop(t: string, o: nat) returns (close: Option<nat>)
    requires o < |t|
    ensures close == CloseFrom(t, o, o + 1)
  {
    var s := 1;
    var i := o + 1;
    while i < |t|
      invariant o + 1 <= i <= |t|
      invariant s == 1 + Depth(Square, t[o + 1..i])
      invariant CloseFrom(t, o, o + 1) == CloseFrom(t, o, i)
    {
      assert t[o + 1..i + 1][..i - o - 1] == t[o + 1..i];
      if t[i] == '[' {
        s := s + 1;
      } else if t[i] == ']' {
        s := s - 1;
        if s == 0 {
          break;
        }
      }
      i := i + 1;
    }
    close := if s != 0 then None else Some(i);
  }

  method WalkLoop(h: Host, scope: Value, e: string) returns (r: Value)
    ensures r == Path(h, scope, e)
    decreases |e|, 0
  {
    hide Eval, CloseFrom, NameLength, StepLength, Member, Depth, Closes;
    var n := NameLength(e);
    if n == 0 {
      return Undefined;
    }
    r := Member(h, scope, Text(e[..n]));
    var o := n;
    while o < |e|
      invariant 0 < o <= |e|
      invariant Walk(h, scope, r, e, o) == Path(h, scope, e)
    {
      if e[o] == '.' {
        var k := StepLength(e[o + 1..]);
        if k == 0 {
          return Undefined;
        }
        r := Member(h, r, Text(e[o + 1..o + 1 + k]));
        o := o + 1 + k;
      } else if e[o] == '[' {
        var close := CloseLoop(e, o);
        if close.None? {
          return Undefined;
        }
        var key := Evaluate(h, scope, e[o + 1..close.value]);
        r := Member(h, r, key);
        o := close.value + 1;
      } else {
        return Undefined;
      }
    }
  }

  lemma EvalUnwraps(h: Host, scope: Value, text: string)
    ensures var e := Trim(text, IsSpace);
            && (e == "" ==> Eval(h, scope, text) == Undefined)
            && (e != "" && e[0] == '(' && e[|e| - 1] == ')' && Wraps(e) ==>
                  Eval(h, scope, text) == Eval(h, scope, e[1..|e| - 1]))
  {
    hide Trim, Wraps, SplitFrom, Leaf, IsSpace, Op.Apply;
  }

  lemma EvalSplits(h: Host, scope: Value, text: string)
    requires var e := Trim(text, IsSpace); e != "" && !(e[0] == '(' && e[|e| - 1] == ')' && Wraps(e))
    ensures var e := Trim(text, IsSpace);
            Eval(h, scope, text) ==
            match SplitFrom(e, 0)
            case Some(i) =>
              var op := OpAt(e, i);
              op.Apply(h, Eval(h, scope, e[..i]), Eval(h, scope, e[i + |op.Text()|..]))
            case None => if e[0] == '!' then Bool(Falsy(h, Eval(h, scope, e[1..]))) else Leaf(h, scope, e)
  {
    hide Trim, Wraps, Leaf, IsSpace, Op.Apply, Falsy;
  }

  /** The evaluator as it runs. Every call it makes is on a strictly shorter text, so it always ends. */
  method Evaluate(h: Host, scope: Value, text: string) returns (v: Value)
    ensures v == Eval(h, scope, text)
    decreases |text|, 2
  {
    hide Eval, Leaf, Op.Apply, Trim, SplitFrom, Wraps, Falsy, IsSplit, IsSpace;
    var e := Trim(text, IsSpace);
    EvalUnwraps(h, scope, text);
    if e == "" {
      return Undefined;
    }
    if e[0] == '(' && e[|e| - 1] == ')' {
      var wraps := WrapsLoop(e);
      if wraps {
        v := Evaluate(h, scope, e[1..|e| - 1]);
        return;
      }
    }
    EvalSplits(h, scope, text);
    var split := SplitLoop(e);
    if split.Some? {
      var i := split.value;
      var op := OpAt(e, i);
      var a := Evaluate(h, scope, e[..i]);
      var b := Evaluate(h, scope, e[i + |op.Text()|..]);
      return op.Apply(h, a, b);
    }
    if e[0] == '!' {
      var a := Evaluate(h, scope, e[1..]);
      return Bool(Falsy(h, a));
    }
    v := EvaluateLeaf(h, scope, e);
  }

  method EvaluateLeaf(h: Host, scope: Value, e: string) returns (v: Value)
    ensures v == Leaf(h, scope, e)
    decreases |e|, 1
  {
    hide Path, IsDecimal;
    if e == "true" {
      return Bool(true);
    }
    if e == "false" {
      return Bool(false);
    }
    if e == "null" {
      return Null;
    }
    if e == "undefined" {
      return Undefined;
    }
    if IsDecimal(e) {
      return Number(h.parse(e));
    }
    if |e| >= 2 && e[0] in {'"', '\''} && e[|e| - 1] == e[0] {
      return Text(e[1..|e| - 1]);
    }
    v := WalkLoop(h, scope, e);
  }

  // ---------- Printed expressions ----------

  datatype Expr =
    | Word(word: Keyword)
    | Decimal(digits: string)
    | Quoted(quote: char, content: string)
    | Lookup(name: string, steps: Steps)
    | Not(e: Expr)
    | Compare(op: Op, l: Expr, r: Expr)

  datatype Keyword = True | False | NullWord | UndefinedWord {
    function Text(): string {
      match this
      case True => "true"
      case False => "false"
      case NullWord => "null"
      case UndefinedWord => "undefined"
    }
  }

  datatype Steps =
    | Done
    | Field(name: string, rest: Steps)
    | Item(digits: string, rest: Steps)
    | Index(key: Expr, rest: Steps)

  predicate IsName(s: string) {
    s != "" && NameLength(s) == |s|
  }

  /** A text without brackets and without `=` reads the same at every depth. */
  ghost predicate Plain(s: string) {
    forall i :: 0 <= i < |s| ==> Weight(Both, s[i]) == 0 && s[i] != '='
  }

  ghost predicate WellFormed(e: Expr) {
    match e
    case Word(_) => true
    case Decimal(digits) => IsDecimal(digits)
    case Quoted(quote, content) => quote in {'"', '\''} && Plain(content)
    case Lookup(name, steps) =>
      && IsName(name) && StepsWellFormed(steps)
      && (steps == Done ==> name !in {"true", "false", "null", "undefined"})
    case Not(x) => WellFormed(x)
    case Compare(_, l, r) => WellFormed(l) && WellFormed(r)
  }

  ghost predicate StepsWellFormed(s: Steps) {
    match s
    case Done => true
    case Field(name, rest) => IsName(name) && StepsWellFormed(rest)
    case Item(digits, rest) => digits != "" && AllOf(digits, IsDigit) && StepsWellFormed(rest)
    case Index(key, rest) => WellFormed(key) && StepsWellFormed(rest)
  }

  ghost function Meaning(h: Host, scope: Value, e: Expr): Value
    decreases e
  {
    match e
    case Word(True) => Bool(true)
    case Word(False) => Bool(false)
    case Word(NullWord) => Null
    case Word(UndefinedWord) => Undefined
    case Decimal(digits) => Number(h.parse(digits))
    case Quoted(_, content) => Text(content)
    case Lookup(name, steps) => Follow(h, scope, Member(h, scope, Text(name)), steps)
    case Not(x) => Bool(Falsy(h, Meaning(h, scope, x)))
    case Compare(op, l, r) => op.Apply(h, Meaning(h, scope, l), Meaning(h, scope, r))
  }

  ghost function Follow(h: Host, scope: Value, r: Value, s: Steps): Value
    decreases s
  {
    match s
    case Done => r
    case Field(name, rest) => Follow(h, scope, Member(h, r, Text(name)), rest)
    case Item(digits, rest) => Follow(h, scope, Member(h, r, Text(digits)), rest)
    case Index(key, rest) => Follow(h, scope, Member(h, r, Meaning(h, scope, key)), rest)
  }

  /** How to write an expression: the whitespace wherever it may go, and which operands get parentheses
      although they need none. */
  datatype Style = Style(pad: string, extra: Expr -> bool)

  function Print(e: Expr, style: Style): string
    decreases e, 0
  {
    match e
    case Word(word) => word.Text()
    case Decimal(digits) => digits
    case Quoted(quote, content) => [quote] + content + [quote]
    case Lookup(name, steps) => name + PrintSteps(steps, style)
    case Not(x) => "!" + (style.pad + Operand(x, style))
    case Compare(op, l, r) => Operand(l, style) + style.pad + op.Text() + (style.pad + Operand(r, style))
  }

  /** An operand: a comparison needs parentheses, any other expression may have them. */
  function Operand(e: Expr, style: Style): string
    decreases e, 1
  {
    if e.Compare? || style.extra(e) then Enclosed('(', style.pad + Print(e, style) + style.pad, ')') else Print(e, style)
  }

  function PrintSteps(s: Steps, style: Style): string
    decreases s, 0
  {
    match s
    case Done => ""
    case Field(name, rest) => "." + name + PrintSteps(rest, style)
    case Item(digits, rest) => "." + digits + PrintSteps(rest, style)
    case Index(key, rest) => Enclosed('[', style.pad + Print(key, style) + style.pad, ']') + PrintSteps(rest, style)
  }

  function Enclosed(open: char, s: string, close: char): string {
    [open] + s + [close]
  }

  // ---------- Depth of printed text ----------

  ghost predicate Balanced(kind: Brackets, s: string) {
    && Depth(kind, s) == 0
    && forall i :: 0 <= i <= |s| ==> Depth(kind, s[..i]) >= 0
  }

  /** Every `=` of `s` is inside some bracket of `s`. */
  ghost predicate Guarded(s: string) {
    forall i :: 0 <= i < |s| && s[i] == '=' ==> Depth(Both, s[..i]) > 0
  }

  lemma {:induction false} DepthConcat(kind: Brackets, a: string, b: string)
    ensures Depth(kind, a + b) == Depth(kind, a) + Depth(kind, b)
    decreases |b|
  {
    if b == "" {
      assert a + b == a;
    } else {
      var k := |b| - 1;
      assert (a + b)[..|a + b| - 1] == a + b[..k];
      DepthConcat(kind, a, b[..k]);
    }
  }

  /** The first `i` characters of `a + b` are a part of `a`, or all of `a` and a part of `b`. */
  lemma DepthAt(kind: Brackets, a: string, b: string, i: nat)
    requires i <= |a| + |b|
    ensures Depth(kind, (a + b)[..i]) ==
            if i <= |a| then Depth(kind, a[..i]) else Depth(kind, a) + Depth(kind, b[..i - |a|])
  {
    if i <= |a| {
      assert (a + b)[..i] == a[..i];
    } else {
      assert (a + b)[..i] == a + b[..i - |a|];
      DepthConcat(kind, a, b[..i - |a|]);
    }
  }

  lemma BalancedConcat(kind: Brackets, a: string, b: string)
    requires Balanced(kind, a) && Balanced(kind, b)
    ensures Balanced(kind, a + b)
  {
    DepthConcat(kind, a, b);
    forall i | 0 <= i <= |a + b| ensures Depth(kind, (a + b)[..i]) >= 0 {
      DepthAt(kind, a, b, i);
    }
  }

  /** Inside matching brackets around a balanced text, the depth never falls below the opening's weight. */
  lemma EnclosedDepth(kind: Brackets, open: char, s: string, close: char, i: nat)
    requires Balanced(kind, s) && 0 < i <= |s| + 1
    ensures Depth(kind, Enclosed(open, s, close)[..i]) >= Weight(kind, open)
  {
    assert Enclosed(open, s, close)[..i] == [open] + s[..i - 1];
    DepthConcat(kind, [open], s[..i - 1]);
    assert [open][..0] == "";
    assert s[..i - 1] == s[..i - 1];
  }

  lemma EnclosedBalanced(kind: Brackets, open: char, s: string, close: char)
    requires Balanced(kind, s)
    requires Weight(kind, open) >= 0 && Weight(kind, close) == -Weight(kind, open)
    ensures Balanced(kind, Enclosed(open, s, close))
  {
    var t := Enclosed(open, s, close);
    assert t == [open] + (s + [close]);
    assert [open][..0] == "" && [close][..0] == "";
    DepthConcat(kind, [open], s + [close]);
    DepthConcat(kind, s, [close]);
    forall i | 0 <= i <= |t| ensures Depth(kind, t[..i]) >= 0 {
      if 0 < i <= |s| + 1 {
        EnclosedDepth(kind, open, s, close, i);
      } else if i == |t| {
        assert t[..i] == t;
      }
    }
  }

  lemma {:induction false} FlatBalanced(kind: Brackets, s: string)
    requires forall c :: c in s ==> Weight(kind, c) == 0
    ensures Balanced(kind, s)
    decreases |s|
  {
    if s != "" {
      var k := |s| - 1;
      FlatBalanced(kind, s[..k]);
      forall i | 0 <= i <= |s| ensures Depth(kind, s[..i]) >= 0 {
        if i <= k {
          assert s[..i] == s[..k][..i];
        } else {
          assert s[..i] == s;
        }
      }
    }
  }

  lemma GuardedConcat(a: string, b: string)
    requires Guarded(a) && Guarded(b) && Balanced(Both, a)
    ensures Guarded(a + b)
  {
    forall i | 0 <= i < |a + b| && (a + b)[i] == '=' ensures Depth(Both, (a + b)[..i]) > 0 {
      DepthAt(Both, a, b, i);
    }
  }

  lemma EnclosedGuarded(open: char, s: string, close: char)
    requires Balanced(Both, s) && Weight(Both, open) == 1 && close != '='
    ensures Guarded(Enclosed(open, s, close))
  {
    var t := Enclosed(open, s, close);
    forall i | 0 <= i < |t| && t[i] == '=' ensures Depth(Both, t[..i]) > 0 {
      EnclosedDepth(Both, open, s, close, i);
    }
  }

  // ---------- Shape of printed text ----------

  lemma RunAll(s: string, p: char -> bool)
    requires Run(s, p) == |s|
    ensures AllOf(s, p)
  {
    assert s[..|s|] == s;
  }

  lemma {:induction false} RunStops(a: string, b: string, p: char -> bool)
    requires AllOf(a, p) && (b != "" ==> !p(b[0]))
    ensures Run(a + b, p) == |a|
  {
    if a == "" {
      assert a + b == b;
    } else {
      assert (a + b)[1..] == a[1..] + b;
      RunStops(a[1..], b, p);
    }
  }

  lemma NameShape(s: string)
    requires IsName(s)
    ensures s != "" && IsNameStart(s[0]) && AllOf(s, IsNameChar)
  {
    RunAll(s, IsNameChar);
  }

  predicate IsDecimalChar(c: char) {
    IsDigit(c) || c == '-' || c == '.'
  }

  lemma DecimalShape(s: string)
    requires IsDecimal(s)
    ensures s != "" && AllOf(s, IsDecimalChar) && s[0] != '.'
  {
    hide Run, AllOf;
    var t := if s[0] == '-' then s[1..] else s;
    var k := Run(t, IsDigit);
    DigitsAround(t, k);
    SignedDecimal(s, t);
  }

  lemma SignedDecimal(s: string, t: string)
    requires s != "" && t == if s[0] == '-' then s[1..] else s
    requires AllOf(t, IsDecimalChar) && (t != "" ==> t[0] != '.')
    ensures AllOf(s, IsDecimalChar) && s[0] != '.'
  {
    forall i | 0 <= i < |s| ensures IsDecimalChar(s[i]) {
      assert s[0] == '-' && i > 0 ==> s[i] == t[i - 1];
    }
  }

  /** Digits with at most one point among them, and not at the start. */
  lemma DigitsAround(t: string, k: nat)
    requires 0 < k <= |t| && AllOf(t[..k], IsDigit)
    requires k < |t| ==> t[k] == '.' && Run(t[k + 1..], IsDigit) == |t| - k - 1
    ensures AllOf(t, IsDecimalChar) && t[0] != '.'
  {
    hide Run;
    assert t[..k][0] == t[0];
    if k < |t| {
      RunAll(t[k + 1..], IsDigit);
    }
    forall i | 0 <= i < |t| ensures IsDecimalChar(t[i]) {
      if i < k {
        assert t[..k][i] == t[i];
      } else if i > k {
        assert t[k + 1..][i - k - 1] == t[i];
      }
    }
  }

  /** Whitespace that may stand around operands. */
  ghost predicate Blank(pad: string) {
    AllOf(pad, IsSpace)
  }

  lemma BlankBalanced(kind: Brackets, pad: string)
    requires Blank(pad)
    ensures Balanced(kind, pad) && Guarded(pad)
  {
    forall c | c in pad ensures Weight(kind, c) == 0 && c != '=' {
      assert IsSpace(c);
    }
    FlatBalanced(kind, pad);
  }

  lemma PaddedBalanced(kind: Brackets, s: string, pad: string)
    requires Blank(pad) && Balanced(kind, s)
    ensures Balanced(kind, pad + s + pad)
  {
    BlankBalanced(kind, pad);
    BalancedConcat(kind, pad, s);
    BalancedConcat(kind, pad + s, pad);
  }

  lemma AtomBalanced(kind: Brackets, e: Expr, style: Style)
    requires WellFormed(e)
    ensures e.Word? || e.Decimal? || e.Quoted? ==> Balanced(kind, Print(e, style)) && Guarded(Print(e, style))
    ensures e.Lookup? ==> Balanced(kind, e.name) && Guarded(e.name)
  {
    hide Balanced, Guarded, Depth, IsDecimal, NameLength;
    match e
    case Word(word) => PlainBalanced(kind, word.Text());
    case Decimal(digits) =>
      DecimalShape(digits);
      PlainBalanced(kind, digits);
    case Quoted(quote, content) => PlainBalanced(kind, [quote] + content + [quote]);
    case Lookup(name, _) =>
      NameShape(name);
      PlainBalanced(kind, name);
    case Not(_) =>
    case Compare(_, _, _) =>
  }

  lemma PlainBalanced(kind: Brackets, s: string)
    requires Plain(s)
    ensures Balanced(kind, s) && Guarded(s)
  {
    FlatBalanced(kind, s);
  }

  lemma NotBalanced(kind: Brackets, x: Expr, style: Style)
    requires Blank(style.pad) && Balanced(kind, Print(x, style))
    ensures Balanced(kind, Print(Not(x), style))
  {
    hide Balanced;
    OperandBalanced(kind, x, style);
    BlankBalanced(kind, style.pad);
    BalancedConcat(kind, style.pad, Operand(x, style));
    FlatBalanced(kind, "!");
    BalancedConcat(kind, "!", style.pad + Operand(x, style));
  }

  lemma CompareBalanced(kind: Brackets, op: Op, l: Expr, r: Expr, style: Style)
    requires Blank(style.pad) && Balanced(kind, Print(l, style)) && Balanced(kind, Print(r, style))
    ensures Balanced(kind, Print(Compare(op, l, r), style))
  {
    hide Balanced;
    OperandBalanced(kind, l, style);
    OperandBalanced(kind, r, style);
    BlankBalanced(kind, style.pad);
    FlatBalanced(kind, op.Text());
    BalancedConcat(kind, Operand(l, style), style.pad);
    BalancedConcat(kind, Operand(l, style) + style.pad, op.Text());
    BalancedConcat(kind, style.pad, Operand(r, style));
    BalancedConcat(kind, Operand(l, style) + style.pad + op.Text(), style.pad + Operand(r, style));
  }

  lemma {:induction false} PrintBalanced(kind: Brackets, e: Expr, style: Style)
    requires WellFormed(e) && Blank(style.pad)
    ensures Balanced(kind, Print(e, style))
    decreases e
  {
    hide Balanced, Guarded, Blank;
    AtomBalanced(kind, e, style);
    match e
    case Word(_) =>
    case Decimal(_) =>
    case Quoted(_, _) =>
    case Lookup(name, steps) =>
      StepsBalanced(kind, steps, style);
      BalancedConcat(kind, name, PrintSteps(steps, style));
    case Not(x) =>
      PrintBalanced(kind, x, style);
      NotBalanced(kind, x, style);
    case Compare(op, l, r) =>
      PrintBalanced(kind, l, style);
      PrintBalanced(kind, r, style);
      CompareBalanced(kind, op, l, r, style);
  }

  lemma OperandBalanced(kind: Brackets, e: Expr, style: Style)
    requires Blank(style.pad) && Balanced(kind, Print(e, style))
    ensures Balanced(kind, Operand(e, style))
  {
    hide Balanced, Print;
    PaddedBalanced(kind, Print(e, style), style.pad);
    EnclosedBalanced(kind, '(', style.pad + Print(e, style) + style.pad, ')');
  }

  lemma {:induction false} StepsBalanced(kind: Brackets, s: Steps, style: Style)
    requires StepsWellFormed(s) && Blank(style.pad)
    ensures Balanced(kind, PrintSteps(s, style))
    decreases s
  {
    match s
    case Done =>
    case Field(name, rest) =>
      NameShape(name);
      FlatBalanced(kind, "." + name);
      StepsBalanced(kind, rest, style);
      BalancedConcat(kind, "." + name, PrintSteps(rest, style));
    case Item(digits, rest) =>
      FlatBalanced(kind, "." + digits);
      StepsBalanced(kind, rest, style);
      BalancedConcat(kind, "." + digits, PrintSteps(rest, style));
    case Index(key, rest) =>
      var inner := style.pad + Print(key, style) + style.pad;
      PrintBalanced(kind, key, style);
      PaddedBalanced(kind, Print(key, style), style.pad);
      EnclosedBalanced(kind, '[', inner, ']');
      StepsBalanced(kind, rest, style);
      BalancedConcat(kind, Enclosed('[', inner, ']'), PrintSteps(rest, style));
  }

  lemma {:induction false} StepsGuarded(s: Steps, style: Style)
    requires StepsWellFormed(s) && Blank(style.pad)
    ensures Guarded(PrintSteps(s, style))
    decreases s
  {
    hide Balanced, Guarded, Depth, IsName;
    match s
    case Done => PlainBalanced(Both, "");
    case Field(name, rest) =>
      NameShape(name);
      PlainBalanced(Both, "." + name);
      StepsGuarded(rest, style);
      GuardedConcat("." + name, PrintSteps(rest, style));
    case Item(digits, rest) =>
      PlainBalanced(Both, "." + digits);
      StepsGuarded(rest, style);
      GuardedConcat("." + digits, PrintSteps(rest, style));
    case Index(key, rest) =>
      var inner := style.pad + Print(key, style) + style.pad;
      PrintBalanced(Both, key, style);
      PaddedBalanced(Both, Print(key, style), style.pad);
      EnclosedGuarded('[', inner, ']');
      EnclosedBalanced(Both, '[', inner, ']');
      StepsGuarded(rest, style);
      GuardedConcat(Enclosed('[', inner, ']'), PrintSteps(rest, style));
  }

  lemma {:induction false} StepsEnd(s: Steps, style: Style)
    requires StepsWellFormed(s)
    ensures var t := PrintSteps(s, style);
            t != "" ==> t[0] in {'.', '['} && !IsSpace(t[|t| - 1]) && t[|t| - 1] != '!'
    ensures PrintSteps(s, style) == "" <==> s == Done
    decreases s
  {
    match s
    case Done =>
    case Field(name, rest) =>
      NameShape(name);
      StepsEnd(rest, style);
    case Item(digits, rest) => StepsEnd(rest, style);
    case Index(key, rest) => StepsEnd(rest, style);
  }

  /** All operators of a printed expression, unless it is a comparison, are inside brackets. */
  lemma {:induction false} PrintGuarded(e: Expr, style: Style)
    requires WellFormed(e) && Blank(style.pad) && !e.Compare?
    ensures Guarded(Print(e, style))
    decreases e, 0
  {
    hide Balanced, Guarded, Blank;
    AtomBalanced(Both, e, style);
    match e
    case Word(_) =>
    case Decimal(_) =>
    case Quoted(_, _) =>
    case Lookup(name, steps) =>
      StepsGuarded(steps, style);
      GuardedConcat(name, PrintSteps(steps, style));
    case Not(x) =>
      OperandGuarded(x, style);
      BlankBalanced(Both, style.pad);
      GuardedConcat(style.pad, Operand(x, style));
      PlainBalanced(Both, "!");
      GuardedConcat("!", style.pad + Operand(x, style));
  }

  lemma {:induction false} OperandGuarded(e: Expr, style: Style)
    requires WellFormed(e) && Blank(style.pad)
    ensures Guarded(Operand(e, style))
    decreases e, 1
  {
    hide Balanced, Guarded, Blank, Print;
    if e.Compare? || style.extra(e) {
      PrintBalanced(Both, e, style);
      PaddedBalanced(Both, Print(e, style), style.pad);
      EnclosedGuarded('(', style.pad + Print(e, style) + style.pad, ')');
    } else {
      PrintGuarded(e, style);
    }
  }

  /** Printed text starts and ends with something other than whitespace, does not end in `!`, and starts with
      a parenthesis only when it is a comparison. */
  ghost predicate Clean(s: string) {
    Tight(s, IsSpace) && s[|s| - 1] != '!'
  }

  lemma {:induction false} PrintClean(e: Expr, style: Style)
    requires WellFormed(e)
    ensures Clean(Print(e, style))
    ensures !e.Compare? ==> Print(e, style)[0] != '('
    decreases e, 0
  {
    hide IsDecimal, IsName, IsSpace, StepsWellFormed, PrintSteps, Clean, Operand, Op.Text;
    match e
    case Word(word) => WordClean(word);
    case Decimal(digits) => DecimalClean(digits);
    case Quoted(quote, content) =>
      QuotesAreNotSpace();
      EnclosedClean(quote, content, quote);
    case Lookup(name, steps) => LookupClean(name, steps, style);
    case Not(x) =>
      OperandClean(x, style);
      NegatedClean(style.pad, Operand(x, style));
    case Compare(op, l, r) =>
      OperandClean(l, style);
      OperandClean(r, style);
      var middle := style.pad + op.Text() + style.pad;
      JoinedClean(Operand(l, style), middle, Operand(r, style));
      assert Print(e, style) == Operand(l, style) + middle + Operand(r, style);
  }

  lemma NegatedClean(pad: string, x: string)
    requires Clean(x)
    ensures Clean("!" + (pad + x)) && ("!" + (pad + x))[0] == '!'
  {
    hide IsSpace;
    QuotesAreNotSpace();
  }

  lemma JoinedClean(a: string, middle: string, b: string)
    requires Clean(a) && Clean(b)
    ensures Clean(a + middle + b)
  {
    hide IsSpace;
  }

  lemma {:induction false} OperandClean(e: Expr, style: Style)
    requires WellFormed(e)
    ensures Clean(Operand(e, style))
    decreases e, 1
  {
    hide IsSpace, Print;
    if e.Compare? || style.extra(e) {
      QuotesAreNotSpace();
      EnclosedClean('(', style.pad + Print(e, style) + style.pad, ')');
    } else {
      PrintClean(e, style);
    }
  }

  lemma QuotesAreNotSpace()
    ensures !IsSpace('"') && !IsSpace('\'') && !IsSpace('(') && !IsSpace(')') && !IsSpace('!')
  {
  }

  lemma WordClean(word: Keyword)
    ensures Clean(word.Text()) && word.Text()[0] != '('
  {
  }

  lemma DecimalClean(digits: string)
    requires IsDecimal(digits)
    ensures Clean(digits) && digits[0] != '('
  {
    DecimalShape(digits);
  }

  lemma LookupClean(name: string, steps: Steps, style: Style)
    requires IsName(name) && StepsWellFormed(steps)
    ensures Clean(name + PrintSteps(steps, style)) && (name + PrintSteps(steps, style))[0] != '('
  {
    NameShape(name);
    StepsEnd(steps, style);
  }

  lemma EnclosedClean(open: char, s: string, close: char)
    requires !IsSpace(open) && !IsSpace(close) && close != '!'
    ensures Clean(Enclosed(open, s, close))
    ensures Enclosed(open, s, close)[0] == open
  {
  }

  // ---------- What the evaluator does with printed text ----------

  lemma TightIsTrimmed(s: string)
    requires Tight(s, IsSpace)
    ensures Trim(s, IsSpace) == s
  {
    assert "" + s + "" == s;
    TrimPad("", s, "", IsSpace);
  }

  /** Whitespace around an expression changes nothing. */
  lemma EvalPadded(h: Host, scope: Value, a: string, s: string, b: string)
    requires Blank(a) && Blank(b) && Tight(s, IsSpace)
    ensures Eval(h, scope, a + s + b) == Eval(h, scope, s)
  {
    hide IsSpace, Leaf, Op.Apply, Wraps, SplitFrom, Falsy, Trim;
    TrimPad(a, s, b, IsSpace);
    TightIsTrimmed(s);
  }

  lemma EnclosedWraps(s: string)
    requires Balanced(Round, s)
    ensures Wraps(Enclosed('(', s, ')'))
  {
    var t := Enclosed('(', s, ')');
    forall i | 0 <= i < |t| - 1 && t[i] == ')' ensures Depth(Round, t[..i + 1]) != 0 {
      EnclosedDepth(Round, '(', s, ')', i + 1);
    }
  }

  /** An operand, with whitespace anywhere around it, evaluates as the expression does. */
  lemma EvalOperand(h: Host, scope: Value, a: string, e: Expr, style: Style, b: string)
    requires WellFormed(e) && Blank(style.pad) && Blank(a) && Blank(b)
    ensures Eval(h, scope, a + Operand(e, style) + b) == Eval(h, scope, Print(e, style))
  {
    hide Blank, WellFormed, Print, IsSpace, Eval, Balanced;
    PrintClean(e, style);
    OperandClean(e, style);
    EvalPadded(h, scope, a, Operand(e, style), b);
    if e.Compare? || style.extra(e) {
      PrintBalanced(Round, e, style);
      PaddedBalanced(Round, Print(e, style), style.pad);
      EvalEnclosed(h, scope, style.pad + Print(e, style) + style.pad);
      EvalPadded(h, scope, style.pad, Print(e, style), style.pad);
    }
  }

  lemma EvalEnclosed(h: Host, scope: Value, inner: string)
    requires Balanced(Round, inner)
    ensures Eval(h, scope, Enclosed('(', inner, ')')) == Eval(h, scope, inner)
  {
    hide Balanced, Wraps, Leaf, SplitFrom, IsSpace, Trim;
    var t := Enclosed('(', inner, ')');
    QuotesAreNotSpace();
    EnclosedClean('(', inner, ')');
    EnclosedWraps(inner);
    TightIsTrimmed(t);
    assert t[1..|t| - 1] == inner;
  }

  /** The first operator outside all brackets is the root, whatever follows it. A text that starts with a
      parenthesis must close it before the operator, as any left side with balanced brackets does. */
  lemma SplitsAtFirst(h: Host, scope: Value, l: string, op: Op, r: string)
    requires SplitFrom(l, 0) == None && Depth(Both, l) == 0 && Trim(l, IsSpace) != ""
    requires l[|l| - 1] != '=' && l[|l| - 1] != '!'
    requires |op.Text()| == 2 ==> r == "" || r[0] != '='
    requires Tight(l + op.Text() + r, IsSpace)
    requires l[0] == '(' ==> exists i :: 0 <= i < |l| && l[i] == ')' && Depth(Round, l[..i + 1]) == 0
    ensures Eval(h, scope, l + op.Text() + r) == op.Apply(h, Eval(h, scope, l), Eval(h, scope, r))
  {
    hide Leaf, Trim, Weight, IsSpace;
    var t := l + op.Text() + r;
    TightIsTrimmed(t);
    FirstSplitIs(l, op, r);
    assert t[..|l|] == l && t[|l| + |op.Text()|..] == r;
    if l[0] == '(' {
      var i :| 0 <= i < |l| && l[i] == ')' && Depth(Round, l[..i + 1]) == 0;
      assert t[i] == ')' && t[..i + 1] == l[..i + 1];
      assert !Wraps(t);
    }
  }

  lemma FirstSplitIs(l: string, op: Op, r: string)
    requires SplitFrom(l, 0) == None && Depth(Both, l) == 0 && Trim(l, IsSpace) != ""
    requires l[|l| - 1] != '=' && l[|l| - 1] != '!'
    requires |op.Text()| == 2 ==> r == "" || r[0] != '='
    ensures SplitFrom(l + op.Text() + r, 0) == Some(|l|)
    ensures OpAt(l + op.Text() + r, |l|) == op
  {
    hide Trim, IsSpace, Depth, IsSplit;
    var t := l + op.Text() + r;
    OperatorAfter(l, op, r);
    forall j | 0 <= j < |l| ensures !IsSplit(t, j) {
      SplitInside(l, op.Text() + r, j);
      assert l + (op.Text() + r) == t;
    }
  }

  lemma OperatorAfter(l: string, op: Op, r: string)
    requires Depth(Both, l) == 0 && Trim(l, IsSpace) != ""
    requires l[|l| - 1] != '=' && l[|l| - 1] != '!'
    requires |op.Text()| == 2 ==> r == "" || r[0] != '='
    ensures var t := l + op.Text() + r; IsSplit(t, |l|) && OpAt(t, |l|) == op
  {
    hide Trim, IsSpace, Depth;
    var t := l + op.Text() + r;
    assert t[..|l|] == l;
    assert t[|l|] == op.Text()[0] && t[|l| + 1] == '=';
  }

  lemma SplitInside(l: string, more: string, j: nat)
    requires j < |l| && l[|l| - 1] != '=' && l[|l| - 1] != '!'
    ensures IsSplit(l + more, j) ==> IsSplit(l, j)
  {
    hide Trim, IsSpace, Depth;
    assert (l + more)[..j] == l[..j];
  }

  lemma GuardedNoSplit(t: string)
    requires Guarded(t)
    ensures SplitFrom(t, 0) == None
  {
    forall j | 0 <= j < |t| ensures !IsSplit(t, j) {
      if j + 1 < |t| && t[j + 1] == '=' {
        DepthStep(Both, t, j);
      }
    }
  }

  lemma EvalLeaf(h: Host, scope: Value, t: string)
    requires Tight(t, IsSpace) && Guarded(t) && t[0] != '(' && t[0] != '!'
    ensures Eval(h, scope, t) == Leaf(h, scope, t)
  {
    hide Leaf, Guarded, SplitFrom, IsSpace;
    TightIsTrimmed(t);
    GuardedNoSplit(t);
  }

  lemma EvalNot(h: Host, scope: Value, x: Expr, style: Style)
    requires WellFormed(x) && Blank(style.pad)
    ensures Eval(h, scope, Print(Not(x), style)) == Bool(Falsy(h, Eval(h, scope, Print(x, style))))
  {
    hide Leaf, Guarded, Blank, SplitFrom, IsSpace, Operand;
    var t := Print(Not(x), style);
    PrintClean(Not(x), style);
    TightIsTrimmed(t);
    PrintGuarded(Not(x), style);
    GuardedNoSplit(t);
    assert t[1..] == style.pad + Operand(x, style) + "";
    BlankNone();
    EvalOperand(h, scope, style.pad, x, style, "");
  }

  lemma BlankNone()
    ensures Blank("")
  {
  }

  lemma TrimNonBlank(s: string, i: nat)
    requires i < |s| && !IsSpace(s[i])
    ensures Trim(s, IsSpace) != ""
  {
    TrimStartNonBlank(s, i);
    var t := TrimStart(s, IsSpace);
    TrimEndNonBlank(t);
  }

  lemma {:induction false} TrimStartNonBlank(s: string, i: nat)
    requires i < |s| && !IsSpace(s[i])
    ensures TrimStart(s, IsSpace) != ""
  {
    if i > 0 {
      TrimStartNonBlank(s[1..], i - 1);
    }
  }

  lemma {:induction false} TrimEndNonBlank(s: string)
    requires s != "" && !IsSpace(s[0])
    ensures TrimEnd(s, IsSpace) != ""
    decreases |s|
  {
    if |s| > 1 {
      TrimEndNonBlank(s[..|s| - 1]);
    }
  }

  /** An operand, and whitespace after it, is a proper left side. */
  lemma OperandOnTheLeft(l: Expr, style: Style)
    requires WellFormed(l) && Blank(style.pad)
    ensures var x := Operand(l, style) + style.pad;
            && Guarded(x) && Depth(Both, x) == 0 && Trim(x, IsSpace) != "" && !IsSpace(x[0])
            && x[|x| - 1] != '=' && x[|x| - 1] != '!'
            && (x[0] == '(' ==> exists i :: 0 <= i < |x| && x[i] == ')' && Depth(Round, x[..i + 1]) == 0)
  {
    hide Guarded, IsSpace, Print, Blank;
    var t := Operand(l, style);
    var x := t + style.pad;
    PrintBalanced(Both, l, style);
    OperandBalanced(Both, l, style);
    OperandGuarded(l, style);
    OperandClean(l, style);
    PrintClean(l, style);
    NoOperatorAtTheEnds(t);
    BlankBalanced(Both, style.pad);
    GuardedConcat(t, style.pad);
    DepthConcat(Both, t, style.pad);
    TrimNonBlank(x, 0);
    BlankLast(t, style.pad);
    if l.Compare? || style.extra(l) {
      PrintBalanced(Round, l, style);
      OperandBalanced(Round, l, style);
      var i := |t| - 1;
      assert x[i] == ')' && x[..i + 1] == t;
    }
  }

  lemma NoOperatorAtTheEnds(t: string)
    requires Guarded(t) && Balanced(Both, t) && t != ""
    ensures t[0] != '=' && t[|t| - 1] != '='
  {
    assert t[..|t|] == t;
    DepthStep(Both, t, |t| - 1);
  }

  lemma BlankLast(t: string, pad: string)
    requires Blank(pad) && t != "" && t[|t| - 1] != '=' && t[|t| - 1] != '!'
    ensures (t + pad)[|t + pad| - 1] != '=' && (t + pad)[|t + pad| - 1] != '!'
  {
    if pad != "" {
      assert IsSpace(pad[|pad| - 1]);
    }
  }

  /** A comparison with any operand on the left, whatever stands on the right. */
  lemma EvalAfterOperand(h: Host, scope: Value, l: Expr, op: Op, y: string, style: Style)
    requires WellFormed(l) && Blank(style.pad)
    requires y != "" && y[0] != '=' && !IsSpace(y[|y| - 1])
    ensures Eval(h, scope, Operand(l, style) + style.pad + op.Text() + y) ==
            op.Apply(h, Eval(h, scope, Print(l, style)), Eval(h, scope, y))
  {
    hide Blank, Eval, Trim, IsSpace, Guarded, Op.Apply, Operand, Depth, WellFormed, Print, Op.Text;
    var x := Operand(l, style) + style.pad;
    OperandOnTheLeft(l, style);
    GuardedNoSplit(x);
    SplitsAtFirst(h, scope, x, op, y);
    BlankNone();
    EvalOperand(h, scope, "", l, style, style.pad);
    assert "" + Operand(l, style) + style.pad == x;
  }

  // ---------- Chains of comparisons ----------

  /** Operands joined by operators, without parentheses around any comparison of two of them. */
  function ChainText(head: Expr, rest: seq<(Op, Expr)>, style: Style): string
    decreases |rest|
  {
    if rest == [] then Operand(head, style)
    else Operand(head, style) + style.pad + rest[0].0.Text() + (style.pad + ChainText(rest[0].1, rest[1..], style))
  }

  ghost predicate ChainWellFormed(head: Expr, rest: seq<(Op, Expr)>) {
    WellFormed(head) && forall i :: 0 <= i < |rest| ==> WellFormed(rest[i].1)
  }

  ghost function Meanings(h: Host, scope: Value, rest: seq<(Op, Expr)>): seq<(Op, Value)> {
    seq(|rest|, i requires 0 <= i < |rest| => (rest[i].0, Meaning(h, scope, rest[i].1)))
  }

  /** `a op (b op (c op d))` */
  function RightNest(h: Host, head: Value, rest: seq<(Op, Value)>): Value
    decreases |rest|
  {
    if rest == [] then head else rest[0].0.Apply(h, head, RightNest(h, rest[0].1, rest[1..]))
  }

  /** `((a op b) op c) op d`, which is what JavaScript means by such a chain. */
  function LeftNest(h: Host, head: Value, rest: seq<(Op, Value)>): Value
    decreases |rest|
  {
    if rest == [] then head else LeftNest(h, rest[0].0.Apply(h, head, rest[0].1), rest[1..])
  }

  lemma {:induction false} ChainEdges(head: Expr, rest: seq<(Op, Expr)>, style: Style)
    requires ChainWellFormed(head, rest) && Blank(style.pad)
    ensures var t := ChainText(head, rest, style); Tight(t, IsSpace) && t[0] != '='
    decreases |rest|
  {
    hide Operand, IsSpace, Blank, Op.Text, Tight;
    OperandEdges(head, style);
    if rest != [] {
      ChainEdges(rest[0].1, rest[1..], style);
      var middle := style.pad + rest[0].0.Text() + style.pad;
      var next := ChainText(rest[0].1, rest[1..], style);
      assert ChainText(head, rest, style) == Operand(head, style) + middle + next;
      EdgesOf(Operand(head, style), middle, next);
    }
  }

  lemma OperandEdges(e: Expr, style: Style)
    requires WellFormed(e) && Blank(style.pad)
    ensures var t := Operand(e, style); Tight(t, IsSpace) && t[0] != '='
  {
    hide Operand, IsSpace, Blank, WellFormed, Guarded, Balanced;
    OperandClean(e, style);
    OperandGuarded(e, style);
    PrintBalanced(Both, e, style);
    OperandBalanced(Both, e, style);
    NoOperatorAtTheEnds(Operand(e, style));
  }

  lemma EdgesOf(a: string, middle: string, b: string)
    requires Tight(a, IsSpace) && Tight(b, IsSpace)
    ensures var t := a + middle + b; Tight(t, IsSpace) && t[0] == a[0]
  {
    hide IsSpace;
  }

  lemma BlankThen(pad: string, t: string)
    requires Blank(pad) && Tight(t, IsSpace) && t[0] != '='
    ensures var y := pad + t; y != "" && y[0] != '=' && !IsSpace(y[|y| - 1])
  {
    if pad != "" {
      assert IsSpace(pad[0]);
    }
  }

  /** A chain of comparisons of any length nests to the right. */
  lemma {:induction false} ChainsNestRight(h: Host, scope: Value, head: Expr, rest: seq<(Op, Expr)>, style: Style)
    requires ChainWellFormed(head, rest) && Blank(style.pad)
    ensures Eval(h, scope, ChainText(head, rest, style)) == RightNest(h, Meaning(h, scope, head), Meanings(h, scope, rest))
    decreases |rest|
  {
    hide Eval, Blank, IsSpace, Op.Apply, Operand, Meaning, Op.Text, LeftNest, Tight;
    EvalPrint(h, scope, head, style);
    BlankNone();
    if rest == [] {
      EvalOperand(h, scope, "", head, style, "");
      assert "" + Operand(head, style) + "" == Operand(head, style);
    } else {
      var (op, next) := rest[0];
      var t := ChainText(next, rest[1..], style);
      ChainEdges(next, rest[1..], style);
      BlankThen(style.pad, t);
      EvalAfterOperand(h, scope, head, op, style.pad + t, style);
      EvalPadded(h, scope, style.pad, t, "");
      assert style.pad + t + "" == style.pad + t;
      ChainsNestRight(h, scope, next, rest[1..], style);
      assert Meanings(h, scope, rest)[1..] == Meanings(h, scope, rest[1..]);
    }
  }

  /** So the evaluator and JavaScript can differ: on `true===null===false` the one says false, the other true. */
  lemma NestingsDiffer(h: Host, scope: Value)
    ensures var rest := [(Same, Null), (Same, Bool(false))];
            && Eval(h, scope, "true===null===false") == RightNest(h, Bool(true), rest) == Bool(false)
            && LeftNest(h, Bool(true), rest) == Bool(true)
  {
    hide Eval, IsSpace, Op.Apply, ChainText, RightNest, LeftNest;
    var style := Style("", _ => false);
    var rest := [(Same, Word(NullWord)), (Same, Word(False))];
    ChainsNestRight(h, scope, Word(True), rest, style);
    ThreeWords();
    assert Meanings(h, scope, rest) == [(Same, Null), (Same, Bool(false))];
    NestThree(h, Bool(true), Null, Bool(false));
    SameWords(h);
  }

  lemma SameWords(h: Host)
    ensures Same.Apply(h, Bool(true), Same.Apply(h, Null, Bool(false))) == Bool(false)
    ensures Same.Apply(h, Same.Apply(h, Bool(true), Null), Bool(false)) == Bool(true)
  {
  }

  lemma ThreeWords()
    ensures var rest := [(Same, Word(NullWord)), (Same, Word(False))];
            ChainText(Word(True), rest, Style("", _ => false)) == "true===null===false"
  {
    var style := Style("", _ => false);
    var rest := [(Same, Word(NullWord)), (Same, Word(False))];
    assert rest[1..] == [(Same, Word(False))] && rest[1..][1..] == [];
    assert ChainText(Word(False), [], style) == "false";
    assert ChainText(Word(NullWord), rest[1..], style) == "null===false";
  }

  lemma NestThree(h: Host, a: Value, b: Value, c: Value)
    ensures var rest := [(Same, b), (Same, c)];
            && RightNest(h, a, rest) == Same.Apply(h, a, Same.Apply(h, b, c))
            && LeftNest(h, a, rest) == Same.Apply(h, Same.Apply(h, a, b), c)
  {
    var rest := [(Same, b), (Same, c)];
    var last := [(Same, c)];
    assert rest[1..] == last && last[1..] == [];
    assert RightNest(h, c, []) == c;
    assert RightNest(h, b, last) == Same.Apply(h, b, c);
    var left := Same.Apply(h, a, b);
    assert LeftNest(h, left, last) == LeftNest(h, Same.Apply(h, left, c), []);
  }

  /** The two nestings agree on a single comparison, and on chains of booleans of any length with any operators. */
  lemma {:induction false} NestingsAgree(h: Host, head: Value, rest: seq<(Op, Value)>)
    requires |rest| <= 1 || (head.Bool? && forall i :: 0 <= i < |rest| ==> rest[i].1.Bool?)
    ensures RightNest(h, head, rest) == LeftNest(h, head, rest)
    decreases |rest|
  {
    if |rest| >= 2 {
      var (op, v) := rest[0];
      BooleanApply(h, op, head, v);
      NestingsAgree(h, op.Apply(h, head, v), rest[1..]);
      FromTheLeft(h, op, head, v, rest[1..]);
    }
  }

  /** Such chains evaluate as JavaScript means them. */
  lemma ChainsAsInJavaScript(h: Host, scope: Value, head: Expr, rest: seq<(Op, Expr)>, style: Style)
    requires ChainWellFormed(head, rest) && Blank(style.pad)
    requires |rest| <= 1 || (Meaning(h, scope, head).Bool? && forall i :: 0 <= i < |rest| ==> Meaning(h, scope, rest[i].1).Bool?)
    ensures Eval(h, scope, ChainText(head, rest, style)) == LeftNest(h, Meaning(h, scope, head), Meanings(h, scope, rest))
  {
    hide Eval, Blank, ChainText, Meaning;
    ChainsNestRight(h, scope, head, rest, style);
    NestingsAgree(h, Meaning(h, scope, head), Meanings(h, scope, rest));
  }

  function Operators<T>(rest: seq<(Op, T)>): seq<Op> {
    seq(|rest|, i requires 0 <= i < |rest| => rest[i].0)
  }

  /** Chains with these operators evaluate as JavaScript means them, whatever their operands are. */
  ghost predicate ReadAsInJavaScript(h: Host, scope: Value, ops: seq<Op>, style: Style) {
    forall head: Expr, rest: seq<(Op, Expr)> :: ChainWellFormed(head, rest) && Operators(rest) == ops ==>
      Eval(h, scope, ChainText(head, rest, style)) == LeftNest(h, Meaning(h, scope, head), Meanings(h, scope, rest))
  }

  /** That is so, on every host and in every scope, exactly for at most one operator. */
  lemma ReadAsInJavaScriptIff(h: Host, scope: Value, ops: seq<Op>, style: Style)
    requires Blank(style.pad)
    ensures ReadAsInJavaScript(h, scope, ops, style) <==> |ops| <= 1
  {
    hide Eval, Blank, ChainText, Meaning, LeftNest, RightNest;
    if |ops| <= 1 {
      forall head: Expr, rest: seq<(Op, Expr)> | ChainWellFormed(head, rest) && Operators(rest) == ops
        ensures Eval(h, scope, ChainText(head, rest, style)) == LeftNest(h, Meaning(h, scope, head), Meanings(h, scope, rest))
      {
        ChainsAsInJavaScript(h, scope, head, rest, style);
      }
    } else {
      ProbesDiffer(h, ops);
      ProbeMeans(h, scope, ops, true);
      ProbeMeans(h, scope, ops, false);
      ChainsNestRight(h, scope, Word(True), Probe(ops, true), style);
      ChainsNestRight(h, scope, Word(True), Probe(ops, false), style);
    }
  }

  /** `null`, then `x`, then `true` for every operator left. */
  function Probe(ops: seq<Op>, x: bool): seq<(Op, Expr)> {
    seq(|ops|, i requires 0 <= i < |ops| =>
      (ops[i], Word(if i == 0 then NullWord else if i == 1 && !x then False else True)))
  }

  function ProbeValues(ops: seq<Op>, x: bool): seq<(Op, Value)> {
    seq(|ops|, i requires 0 <= i < |ops| => (ops[i], if i == 0 then Null else Bool(i != 1 || x)))
  }

  lemma ProbeMeans(h: Host, scope: Value, ops: seq<Op>, x: bool)
    ensures Meaning(h, scope, Word(True)) == Bool(true)
    ensures Meanings(h, scope, Probe(ops, x)) == ProbeValues(ops, x)
    ensures ChainWellFormed(Word(True), Probe(ops, x)) && Operators(Probe(ops, x)) == ops
  {
  }

  /** Nesting to the right, `null` is compared with a boolean and hides what `x` is. Nesting to the left, the
      result turns with `x`. */
  lemma ProbesDiffer(h: Host, ops: seq<Op>)
    requires |ops| >= 2
    ensures var a, b := ProbeValues(ops, true), ProbeValues(ops, false);
            && RightNest(h, Bool(true), a) == RightNest(h, Bool(true), b)
            && LeftNest(h, Bool(true), a) != LeftNest(h, Bool(true), b)
  {
    hide Op.Apply;
    var a, b := ProbeValues(ops, true), ProbeValues(ops, false);
    var tail := a[2..];
    assert b[2..] == tail;
    assert a == [(ops[0], Null), (ops[1], Bool(true))] + tail && b == [(ops[0], Null), (ops[1], Bool(false))] + tail;
    NullHides(h, ops[0], ops[1], tail);
    LeftTurns(h, ops[0], ops[1], tail);
  }

  lemma NullHides(h: Host, op: Op, next: Op, tail: seq<(Op, Value)>)
    requires forall i :: 0 <= i < |tail| ==> tail[i].1.Bool?
    ensures RightNest(h, Bool(true), [(op, Null), (next, Bool(true))] + tail) ==
            RightNest(h, Bool(true), [(op, Null), (next, Bool(false))] + tail)
  {
    hide Op.Apply;
    BooleanNest(h, Bool(true), tail);
    BooleanNest(h, Bool(false), tail);
    NullApply(h, next, RightNest(h, Bool(true), tail), RightNest(h, Bool(false), tail));
    RightTwo(h, Bool(true), op, Null, next, Bool(true), tail);
    RightTwo(h, Bool(true), op, Null, next, Bool(false), tail);
  }

  lemma NullApply(h: Host, op: Op, a: Value, b: Value)
    requires a.Bool? && b.Bool?
    ensures op.Apply(h, Null, a) == op.Apply(h, Null, b)
    ensures exists r: bool :: op.Apply(h, Bool(true), Null) == Bool(r)
  {
  }

  lemma RightTwo(h: Host, head: Value, op: Op, a: Value, next: Op, b: Value, tail: seq<(Op, Value)>)
    ensures RightNest(h, head, [(op, a), (next, b)] + tail) == op.Apply(h, head, next.Apply(h, a, RightNest(h, b, tail)))
  {
    hide Op.Apply;
    var rest := [(op, a), (next, b)] + tail;
    assert rest[1..] == [(next, b)] + tail && rest[1..][1..] == tail;
    assert RightNest(h, a, rest[1..]) == next.Apply(h, a, RightNest(h, b, tail));
  }

  lemma LeftTwo(h: Host, head: Value, op: Op, a: Value, next: Op, b: Value, tail: seq<(Op, Value)>)
    ensures LeftNest(h, head, [(op, a), (next, b)] + tail) == LeftNest(h, next.Apply(h, op.Apply(h, head, a), b), tail)
  {
    hide Op.Apply;
    var rest := [(op, a), (next, b)] + tail;
    assert rest[1..] == [(next, b)] + tail && rest[1..][1..] == tail;
    assert LeftNest(h, op.Apply(h, head, a), rest[1..]) == LeftNest(h, next.Apply(h, op.Apply(h, head, a), b), tail);
  }

  lemma LeftTurns(h: Host, op: Op, next: Op, tail: seq<(Op, Value)>)
    requires forall i :: 0 <= i < |tail| ==> tail[i].1.Bool?
    ensures LeftNest(h, Bool(true), [(op, Null), (next, Bool(true))] + tail) !=
            LeftNest(h, Bool(true), [(op, Null), (next, Bool(false))] + tail)
  {
    hide Op.Apply;
    NullApply(h, op, Bool(true), Bool(true));
    var first := op.Apply(h, Bool(true), Null);
    BooleanApply(h, next, first, Bool(true));
    BooleanApply(h, next, first, Bool(false));
    LeftNestTurns(h, next.Apply(h, first, Bool(true)), next.Apply(h, first, Bool(false)), tail);
    LeftTwo(h, Bool(true), op, Null, next, Bool(true), tail);
    LeftTwo(h, Bool(true), op, Null, next, Bool(false), tail);
  }

  lemma {:induction false} LeftNestTurns(h: Host, a: Value, b: Value, rest: seq<(Op, Value)>)
    requires a.Bool? && b.Bool? && a != b && forall i :: 0 <= i < |rest| ==> rest[i].1.Bool?
    ensures LeftNest(h, a, rest) != LeftNest(h, b, rest)
    decreases |rest|
  {
    hide Op.Apply;
    if rest != [] {
      var (op, v) := rest[0];
      BooleanApply(h, op, a, v);
      BooleanApply(h, op, b, v);
      LeftNestTurns(h, op.Apply(h, a, v), op.Apply(h, b, v), rest[1..]);
    }
  }

  lemma BooleanApply(h: Host, op: Op, a: Value, b: Value)
    requires a.Bool? && b.Bool?
    ensures op.Apply(h, a, b) == Bool((a.b == b.b) == (op == Same || op == Alike))
  {
  }

  lemma {:induction false} BooleanNest(h: Host, head: Value, rest: seq<(Op, Value)>)
    requires head.Bool? && forall i :: 0 <= i < |rest| ==> rest[i].1.Bool?
    ensures RightNest(h, head, rest).Bool?
    decreases |rest|
  {
    if rest != [] {
      BooleanNest(h, rest[0].1, rest[1..]);
    }
  }

  /** Comparing before a chain of booleans is comparing with its result. */
  lemma FromTheLeft(h: Host, op: Op, a: Value, v: Value, rest: seq<(Op, Value)>)
    requires a.Bool? && v.Bool? && forall i :: 0 <= i < |rest| ==> rest[i].1.Bool?
    ensures RightNest(h, op.Apply(h, a, v), rest) == op.Apply(h, a, RightNest(h, v, rest))
  {
    hide Op.Apply;
    BooleanApply(h, op, a, v);
    if rest != [] {
      var (next, w) := rest[0];
      BooleanNest(h, w, rest[1..]);
      var tail := RightNest(h, w, rest[1..]);
      BooleanApply(h, next, op.Apply(h, a, v), tail);
      BooleanApply(h, next, v, tail);
      BooleanApply(h, op, a, next.Apply(h, v, tail));
    }
  }

  lemma EvalCompare(h: Host, scope: Value, op: Op, l: Expr, r: Expr, style: Style)
    requires WellFormed(l) && WellFormed(r) && Blank(style.pad)
    ensures Eval(h, scope, Print(Compare(op, l, r), style)) ==
            op.Apply(h, Eval(h, scope, Print(l, style)), Eval(h, scope, Print(r, style)))
  {
    hide Blank, Eval, IsSpace, Op.Apply, Operand, WellFormed;
    ChainEdges(r, [], style);
    BlankThen(style.pad, Operand(r, style));
    EvalAfterOperand(h, scope, l, op, style.pad + Operand(r, style), style);
    BlankNone();
    EvalOperand(h, scope, style.pad, r, style, "");
    assert style.pad + Operand(r, style) + "" == style.pad + Operand(r, style);
  }

  // ---------- Paths ----------

  lemma NameRuns(name: string, rest: string)
    requires IsName(name)
    requires rest == "" || rest[0] in {'.', '['}
    ensures StepLength(name + rest) == NameLength(name + rest) == |name| > 0
  {
    NameShape(name);
    RunStops(name, rest, IsNameChar);
  }

  lemma DigitsRun(digits: string, rest: string)
    requires digits != "" && AllOf(digits, IsDigit)
    requires rest == "" || rest[0] in {'.', '['}
    ensures StepLength(digits + rest) == |digits|
  {
    RunStops(digits, rest, IsDigit);
  }

  lemma ClosesAtEnd(before: string, inner: string, rest: string)
    requires Balanced(Square, inner)
    ensures CloseFrom(before + Enclosed('[', inner, ']') + rest, |before|, |before| + 1) == Some(|before| + 1 + |inner|)
  {
    hide CloseFrom, Depth;
    var t := before + Enclosed('[', inner, ']') + rest;
    var o, i := |before|, |before| + 1 + |inner|;
    assert t[o + 1..i + 1] == inner + [']'] && t[i] == ']';
    DepthStep(Square, inner + [']'], |inner|);
    assert (inner + [']'])[..|inner| + 1] == inner + [']'];
    assert (inner + [']'])[..|inner|] == inner;
    assert Closes(t, o, i);
    forall j | o + 1 <= j < i ensures !Closes(t, o, j) {
      assert t[o + 1..j + 1] == inner[..j - o];
    }
  }

  lemma WalkDot(h: Host, scope: Value, r: Value, before: string, word: string, after: string)
    requires before != "" && StepLength(word + after) == |word| > 0
    ensures Walk(h, scope, r, before + "." + word + after, |before|) ==
            Walk(h, scope, Member(h, r, Text(word)), before + "." + word + after, |before + "." + word|)
  {
    hide StepLength, Member, Walk;
    var t, o := before + "." + word + after, |before|;
    assert o < |t| && t[o] == '.' && |before + "." + word| == o + 1 + |word|;
    assert t[o + 1..] == word + after;
    assert t[o + 1..o + 1 + |word|] == word;
    DotStep(h, scope, r, t, o);
  }

  lemma DotStep(h: Host, scope: Value, r: Value, t: string, o: nat)
    requires 0 < o < |t| && t[o] == '.' && StepLength(t[o + 1..]) > 0
    ensures var n := StepLength(t[o + 1..]);
            Walk(h, scope, r, t, o) == Walk(h, scope, Member(h, r, Text(t[o + 1..o + 1 + n])), t, o + 1 + n)
  {
  }

  lemma WalkBracket(h: Host, scope: Value, r: Value, before: string, inner: string, after: string)
    requires before != "" && Balanced(Square, inner)
    ensures var step := Enclosed('[', inner, ']');
            Walk(h, scope, r, before + step + after, |before|) ==
            Walk(h, scope, Member(h, r, Eval(h, scope, inner)), before + step + after, |before + step|)
  {
    hide StepLength, Member, CloseFrom, Eval, Balanced;
    var t := before + Enclosed('[', inner, ']') + after;
    ClosesAtEnd(before, inner, after);
    assert t[|before| + 1..|before| + 1 + |inner|] == inner;
  }

  lemma {:induction false} WalkSteps(h: Host, scope: Value, r: Value, before: string, s: Steps, style: Style)
    requires StepsWellFormed(s) && Blank(style.pad) && before != ""
    ensures Walk(h, scope, r, before + PrintSteps(s, style), |before|) == Follow(h, scope, r, s)
    decreases s
  {
    hide IsSpace, Blank, Walk, IsName, Member, Balanced, Eval, Print, Enclosed, AllOf, Tight, Meaning, NameLength, StepLength;
    match s
    case Done => WalkEnds(h, scope, r, before);
    case Field(name, rest) =>
      var after := PrintSteps(rest, style);
      StepsEnd(rest, style);
      NameRuns(name, after);
      WalkDot(h, scope, r, before, name, after);
      assert before + PrintSteps(s, style) == before + "." + name + after;
      WalkSteps(h, scope, Member(h, r, Text(name)), before + "." + name, rest, style);
    case Item(digits, rest) =>
      var after := PrintSteps(rest, style);
      StepsEnd(rest, style);
      DigitsRun(digits, after);
      WalkDot(h, scope, r, before, digits, after);
      assert before + PrintSteps(s, style) == before + "." + digits + after;
      WalkSteps(h, scope, Member(h, r, Text(digits)), before + "." + digits, rest, style);
    case Index(key, rest) =>
      var inner := style.pad + Print(key, style) + style.pad;
      var after := PrintSteps(rest, style);
      PrintBalanced(Square, key, style);
      PaddedBalanced(Square, Print(key, style), style.pad);
      WalkBracket(h, scope, r, before, inner, after);
      EvalPrint(h, scope, key, style);
      PrintClean(key, style);
      EvalPadded(h, scope, style.pad, Print(key, style), style.pad);
      assert before + PrintSteps(s, style) == before + Enclosed('[', inner, ']') + after;
      WalkSteps(h, scope, Member(h, r, Meaning(h, scope, key)), before + Enclosed('[', inner, ']'), rest, style);
  }

  lemma WalkEnds(h: Host, scope: Value, r: Value, before: string)
    requires before != ""
    ensures Walk(h, scope, r, before + "", |before|) == r
  {
  }

  lemma EvalLookup(h: Host, scope: Value, name: string, steps: Steps, style: Style)
    requires WellFormed(Lookup(name, steps)) && Blank(style.pad)
    ensures Eval(h, scope, name + PrintSteps(steps, style)) ==
            Walk(h, scope, Member(h, scope, Text(name)), name + PrintSteps(steps, style), |name|)
  {
    hide Walk, Guarded, Balanced, IsSpace, Blank, StepsWellFormed, PrintSteps, Eval, IsDecimal, Tight, Trim;
    var rest := PrintSteps(steps, style);
    var t := name + rest;
    PrintClean(Lookup(name, steps), style);
    AtomBalanced(Both, Lookup(name, steps), style);
    StepsGuarded(steps, style);
    GuardedConcat(name, rest);
    NameShape(name);
    EvalLeaf(h, scope, t);
    StepsEnd(steps, style);
    NameRuns(name, rest);
    assert t[..|name|] == name;
    NotKeyword(name, rest);
    NotDecimal(t);
  }

  lemma NotKeyword(name: string, rest: string)
    requires rest == "" ==> name !in {"true", "false", "null", "undefined"}
    requires rest != "" ==> rest[0] in {'.', '['}
    ensures name + rest !in {"true", "false", "null", "undefined"}
  {
    var t := name + rest;
    if rest == "" {
      assert t == name;
    } else {
      assert t[|name|] in {'.', '['};
    }
  }

  lemma NotDecimal(t: string)
    requires t != "" && IsNameStart(t[0])
    ensures !IsDecimal(t)
  {
  }

  // ---------- The main result ----------

  /** Evaluating the printed form of any expression gives the expression's value. */
  lemma {:induction false} EvalPrint(h: Host, scope: Value, e: Expr, style: Style)
    requires WellFormed(e) && Blank(style.pad)
    ensures Eval(h, scope, Print(e, style)) == Meaning(h, scope, e)
    decreases e
  {
    hide Eval, Blank, IsSpace, StepsWellFormed, Balanced, Guarded, Op.Apply;
    match e
    case Word(word) => EvalWord(h, scope, word);
    case Decimal(digits) => EvalDecimal(h, scope, digits);
    case Quoted(quote, content) =>
      AtomBalanced(Both, e, style);
      GuardedNoSplit(Print(e, style));
      QuotedIffNoSplit(h, scope, quote, content);
    case Lookup(name, steps) =>
      EvalLookup(h, scope, name, steps, style);
      NameShape(name);
      WalkSteps(h, scope, Member(h, scope, Text(name)), name, steps, style);
    case Not(x) =>
      EvalNot(h, scope, x, style);
      EvalPrint(h, scope, x, style);
    case Compare(op, l, r) =>
      EvalCompare(h, scope, op, l, r, style);
      EvalPrint(h, scope, l, style);
      EvalPrint(h, scope, r, style);
  }

  lemma EvalWord(h: Host, scope: Value, word: Keyword)
    ensures Eval(h, scope, word.Text()) == Meaning(h, scope, Word(word))
  {
    hide IsSpace, Guarded;
    WordClean(word);
    AtomBalanced(Both, Word(word), Style("", _ => false));
    EvalLeaf(h, scope, word.Text());
  }

  lemma EvalDecimal(h: Host, scope: Value, digits: string)
    requires IsDecimal(digits)
    ensures Eval(h, scope, digits) == Number(h.parse(digits))
  {
    hide IsSpace, Guarded, IsDecimal, Path, Eval;
    DecimalClean(digits);
    AtomBalanced(Both, Decimal(digits), Style("", _ => false));
    DecimalShape(digits);
    assert IsDecimalChar(digits[0]);
    EvalLeaf(h, scope, digits);
  }

  /** A string literal evaluates to its content exactly when no equality operator is found inside it:
      the search for an operator does not skip quoted text. */
  lemma QuotedIffNoSplit(h: Host, scope: Value, quote: char, content: string)
    requires quote in {'"', '\''}
    ensures var t := [quote] + content + [quote];
            Eval(h, scope, t) == Text(content) <==> SplitFrom(t, 0) == None
  {
    hide SplitFrom, IsSpace, Path, Trim, Wraps;
    var t := [quote] + content + [quote];
    QuotesAreNotSpace();
    EnclosedClean(quote, content, quote);
    assert t == Enclosed(quote, content, quote);
    TightIsTrimmed(t);
    assert t[1..|t| - 1] == content;
    assert !IsDecimal(t);
  }

  /** `'a==b'` is such a literal: it evaluates to a comparison of two unfinished strings. */
  lemma QuotedOperatorIsNotText(h: Host, scope: Value)
    ensures Eval(h, scope, "'a==b'") != Text("a==b")
  {
    hide IsSpace, Eval, Guarded, Trim;
    var t := "'a==b'";
    assert t == ['\''] + "a==b" + ['\''];
    QuotedIffNoSplit(h, scope, '\'', "a==b");
    PlainBalanced(Both, "'a");
    assert t[..2] == "'a";
    QuotesAreNotSpace();
    TrimNonBlank("'a", 0);
    assert IsSplit(t, 2);
  }

  // ---------- The language, spelled out ----------

  /** What `trim` removes: the 25 characters of the language's white space and line terminators, one by one. */
  lemma SpacesListed(c: char)
    ensures IsSpace(c) <==>
            c as int in {0x9, 0xA, 0xB, 0xC, 0xD, 0x20, 0xA0, 0x1680, 0x2000, 0x2001, 0x2002, 0x2003, 0x2004, 0x2005, 0x2006,
                         0x2007, 0x2008, 0x2009, 0x200A, 0x2028, 0x2029, 0x202F, 0x205F, 0x3000, 0xFEFF}
  {
  }

  /** The four words, and a text of nothing but whitespace. */
  lemma WordsSpelled(h: Host, scope: Value, pad: string)
    requires Blank(pad)
    ensures Eval(h, scope, "true") == Bool(true) && Eval(h, scope, "false") == Bool(false)
    ensures Eval(h, scope, "null") == Null && Eval(h, scope, "undefined") == Undefined
    ensures Eval(h, scope, pad) == Undefined
  {
    hide IsSpace, Eval, Meaning;
    EvalWords(h, scope);
    EvalBlank(h, scope, pad);
  }

  lemma EvalWords(h: Host, scope: Value)
    ensures Eval(h, scope, "true") == Bool(true) && Eval(h, scope, "false") == Bool(false)
    ensures Eval(h, scope, "null") == Null && Eval(h, scope, "undefined") == Undefined
  {
    hide Eval;
    EvalWord(h, scope, True);
    EvalWord(h, scope, False);
    EvalWord(h, scope, NullWord);
    EvalWord(h, scope, UndefinedWord);
  }

  lemma EvalBlank(h: Host, scope: Value, pad: string)
    requires Blank(pad)
    ensures Eval(h, scope, pad) == Undefined
  {
    hide IsSpace, Leaf, SplitFrom, Wraps;
    TrimAround(pad, "", "", IsSpace);
    assert pad + "" + "" == pad;
    TrimEndKeeps("", IsSpace);
  }

  /** A name starts with a letter of either case, an underscore or a dollar sign and goes on with those or digits. */
  ghost predicate Named(e: string) {
    && e != ""
    && ('A' <= e[0] <= 'Z' || 'a' <= e[0] <= 'z' || e[0] in {'_', '$'})
    && forall i :: 0 <= i < |e| ==> 'A' <= e[i] <= 'Z' || 'a' <= e[i] <= 'z' || e[i] in {'_', '$'} || '0' <= e[i] <= '9'
  }

  lemma NamedIff(e: string)
    ensures Named(e) <==> IsName(e)
  {
    if Named(e) {
      assert AllOf(e, IsNameChar);
      RunStops(e, "", IsNameChar);
      assert e + "" == e;
    }
    if IsName(e) {
      NameShape(e);
    }
  }

  /** Every name but the four words is looked up in the scope. */
  lemma NamesSpelled(h: Host, scope: Value, e: string)
    requires Named(e) && e !in {"true", "false", "null", "undefined"}
    ensures Eval(h, scope, e) == if scope in {Undefined, Null} then Undefined else h.member(scope, Text(e))
  {
    hide Eval, IsName, Named;
    NamedIff(e);
    var style := Style("", _ => false);
    BlankNone();
    EvalPrint(h, scope, Lookup(e, Done), style);
    assert Print(Lookup(e, Done), style) == e;
  }

  /** A name followed by anything but a dot or a square bracket is undefined; so is a dot without a step behind. */
  lemma StraySpelled(h: Host, scope: Value, name: string, c: char, rest: string)
    requires Named(name) && !Named(name + [c])
    requires c != '[' && (c == '.' ==> rest == "" || !(Named([rest[0]]) || Digital([rest[0]])))
    requires Tight(name + [c] + rest, IsSpace) && Guarded(name + [c] + rest)
    ensures Eval(h, scope, name + [c] + rest) == Undefined
  {
    hide Eval, IsSpace, Guarded, Member, IsDecimal, Path, Named;
    var e := name + [c] + rest;
    NamedIff(name);
    NameShape(name);
    assert e[0] == name[0];
    EvalLeaf(h, scope, e);
    NotDecimal(e);
    NoNameChar(name, c);
    WordChars();
    assert !IsNameChar(e[|name|]);
    if c == '.' {
      NoStep(rest);
    }
    StrayPath(h, scope, name, c, rest);
  }

  lemma StrayPath(h: Host, scope: Value, name: string, c: char, rest: string)
    requires IsName(name) && !IsNameChar(c) && c != '[' && (c == '.' ==> StepLength(rest) == 0)
    ensures Path(h, scope, name + [c] + rest) == Undefined
  {
    hide Eval, Member, StepLength, CloseFrom, Run;
    var e := name + [c] + rest;
    NameShape(name);
    assert e == name + ([c] + rest);
    RunStops(name, [c] + rest, IsNameChar);
    assert e[0] == name[0] && NameLength(e) == |name|;
    assert e[|name|] == c && e[|name| + 1..] == rest;
  }

  lemma WordChars()
    ensures AllOf("true", IsNameChar) && AllOf("false", IsNameChar) && AllOf("null", IsNameChar) && AllOf("undefined", IsNameChar)
  {
  }

  lemma NoNameChar(name: string, c: char)
    requires Named(name) && !Named(name + [c])
    ensures !IsNameChar(c)
  {
    var e := name + [c];
    assert e[0] == name[0];
    assert forall i :: 0 <= i < |name| ==> e[i] == name[i];
  }

  lemma NoStep(rest: string)
    requires rest == "" || !(Named([rest[0]]) || Digital([rest[0]]))
    ensures StepLength(rest) == 0
  {
  }

  /** A field, an item or a computed key of what a name stands for; of nothing, it is undefined. */
  lemma MembersSpelled(h: Host, scope: Value, name: string, step: string, key: Expr, style: Style)
    requires Named(name) && name !in {"true", "false", "null", "undefined"} && WellFormed(key) && Blank(style.pad)
    requires Named(step) || (step != "" && forall i :: 0 <= i < |step| ==> '0' <= step[i] <= '9')
    ensures var r, k := Eval(h, scope, name), Eval(h, scope, Print(key, style));
            && Eval(h, scope, name + "." + step) == (if r in {Undefined, Null} then Undefined else h.member(r, Text(step)))
            && Eval(h, scope, name + "[" + (style.pad + Print(key, style) + style.pad) + "]") ==
               (if r in {Undefined, Null} then Undefined else h.member(r, k))
  {
    hide Eval, IsName, Named, Print, Meaning, WellFormed, Blank;
    NamedIff(name);
    NamedIff(step);
    NamesSpelled(h, scope, name);
    DottedSpelled(h, scope, name, step, style);
    KeyedSpelled(h, scope, name, key, style);
  }

  lemma DottedSpelled(h: Host, scope: Value, name: string, step: string, style: Style)
    requires IsName(name) && Blank(style.pad)
    requires IsName(step) || (step != "" && AllOf(step, IsDigit))
    ensures Eval(h, scope, name + "." + step) == Member(h, Member(h, scope, Text(name)), Text(step))
  {
    hide Eval, IsName, Member, Blank;
    var steps := if IsName(step) then Field(step, Done) else Item(step, Done);
    var e := Lookup(name, steps);
    assert StepsWellFormed(Done) && StepsWellFormed(steps);
    EvalPrint(h, scope, e, style);
    assert PrintSteps(Done, style) == "";
    assert Print(e, style) == name + "." + step;
    assert Follow(h, scope, Member(h, Member(h, scope, Text(name)), Text(step)), Done) ==
           Member(h, Member(h, scope, Text(name)), Text(step));
  }

  lemma KeyedSpelled(h: Host, scope: Value, name: string, key: Expr, style: Style)
    requires IsName(name) && WellFormed(key) && Blank(style.pad)
    ensures Eval(h, scope, name + "[" + (style.pad + Print(key, style) + style.pad) + "]") ==
            Member(h, Member(h, scope, Text(name)), Eval(h, scope, Print(key, style)))
  {
    hide Eval, IsName, Member, Blank;
    var e := Lookup(name, Index(key, Done));
    assert StepsWellFormed(Done) && StepsWellFormed(e.steps);
    EvalPrint(h, scope, key, style);
    EvalPrint(h, scope, e, style);
    assert PrintSteps(Done, style) == "";
    var inner := style.pad + Print(key, style) + style.pad;
    assert Print(e, style) == name + "[" + inner + "]";
    var r := Member(h, scope, Text(name));
    assert Follow(h, scope, Member(h, r, Meaning(h, scope, key)), Done) == Member(h, r, Meaning(h, scope, key));
  }

  /** A numeral: digits, perhaps a minus sign before them, perhaps a point and more digits behind. */
  function Numeral(minus: bool, whole: string, fraction: string): string {
    (if minus then "-" else "") + (whole + if fraction == "" then "" else "." + fraction)
  }

  ghost predicate Digital(s: string) {
    forall i :: 0 <= i < |s| ==> '0' <= s[i] <= '9'
  }

  lemma UnsignedRuns(whole: string, fraction: string)
    requires whole != "" && Digital(whole) && Digital(fraction)
    ensures var t := whole + if fraction == "" then "" else "." + fraction;
            && t[0] == whole[0] && Run(t, IsDigit) == |whole|
            && (|whole| < |t| ==> t[|whole|] == '.' && t[|whole| + 1..] == fraction != "")
    ensures Run(fraction, IsDigit) == |fraction|
  {
    hide Run;
    assert AllOf(whole, IsDigit) && AllOf(fraction, IsDigit);
    RunStops(whole, if fraction == "" then "" else "." + fraction, IsDigit);
    RunStops(fraction, "", IsDigit);
    assert fraction + "" == fraction;
  }

  lemma NumeralIsDecimal(minus: bool, whole: string, fraction: string)
    requires whole != "" && Digital(whole) && Digital(fraction)
    ensures IsDecimal(Numeral(minus, whole, fraction))
  {
    hide Run;
    var t := whole + if fraction == "" then "" else "." + fraction;
    var e := Numeral(minus, whole, fraction);
    UnsignedRuns(whole, fraction);
    assert minus ==> e[0] == '-' && e[1..] == t;
    assert !minus ==> e == t;
  }

  lemma DecimalIsNumeral(e: string) returns (minus: bool, whole: string, fraction: string)
    requires IsDecimal(e)
    ensures e == Numeral(minus, whole, fraction) && whole != "" && Digital(whole) && Digital(fraction)
  {
    hide Run;
    minus := e != "" && e[0] == '-';
    var t := if minus then e[1..] else e;
    var k := Run(t, IsDigit);
    whole := t[..k];
    if k == |t| {
      fraction := "";
      assert t == whole + "";
    } else {
      fraction := t[k + 1..];
      RunAll(fraction, IsDigit);
      assert t == whole + ("." + fraction);
    }
    assert e == (if minus then "-" else "") + t;
  }

  /** A text that starts with no name, quote, parenthesis or exclamation mark and has no `=` outside brackets is
      the number it writes if it is a numeral, and else undefined. */
  lemma NumbersSpelled(h: Host, scope: Value, e: string)
    requires Tight(e, IsSpace) && Guarded(e)
    requires e[0] !in {'(', '!', '"', '\'', '_', '$'} && !('A' <= e[0] <= 'Z') && !('a' <= e[0] <= 'z')
    ensures Eval(h, scope, e) ==
            if exists minus, whole, fraction :: whole != "" && Digital(whole) && Digital(fraction) && e == Numeral(minus, whole, fraction)
            then Number(h.parse(e)) else Undefined
  {
    hide Eval, IsSpace, Guarded, IsDecimal, Numeral;
    EvalLeaf(h, scope, e);
    if IsDecimal(e) {
      var minus, whole, fraction := DecimalIsNumeral(e);
    }
    if minus, whole, fraction :| whole != "" && Digital(whole) && Digital(fraction) && e == Numeral(minus, whole, fraction) {
      NumeralIsDecimal(minus, whole, fraction);
    }
  }

  /** An exclamation mark gives true exactly for undefined, null, false, the empty text, and a zero or NaN. */
  lemma NotSpelled(h: Host, scope: Value, x: Expr, style: Style)
    requires WellFormed(x) && Blank(style.pad)
    ensures var v := Eval(h, scope, Print(x, style));
            Eval(h, scope, "!" + (style.pad + Operand(x, style))) ==
            Bool(v in {Undefined, Null, Bool(false), Text("")} || (v.Number? && h.zeroOrNaN(v.n)))
  {
    hide Eval, Blank, Operand, WellFormed;
    EvalNot(h, scope, x, style);
  }

  /** `===` compares numbers as numbers and everything else for being the same; `==` first takes undefined and
      null for each other and for nothing else, then compares values of one type as `===` does. `!==` and `!=` are
      their opposites. */
  lemma OperatorsSpelled(h: Host, scope: Value, l: Expr, r: Expr, style: Style)
    requires WellFormed(l) && WellFormed(r) && Blank(style.pad)
    ensures var a, b := Eval(h, scope, Print(l, style)), Eval(h, scope, Print(r, style));
            var x, y := Operand(l, style) + style.pad, style.pad + Operand(r, style);
            var same := if a.Number? && b.Number? then h.sameNumber(a.n, b.n) else a == b;
            var alike :=
              if a in {Undefined, Null} || b in {Undefined, Null} then a in {Undefined, Null} && b in {Undefined, Null}
              else if (a.Bool? && b.Bool?) || (a.Number? && b.Number?) || (a.Text? && b.Text?) || (a.Object? && b.Object?) then same
              else h.coerced(a, b);
            && Eval(h, scope, x + "===" + y) == Bool(same) && Eval(h, scope, x + "!==" + y) == Bool(!same)
            && Eval(h, scope, x + "==" + y) == Bool(alike) && Eval(h, scope, x + "!=" + y) == Bool(!alike)
  {
    hide Eval, Blank, Operand, WellFormed;
    EvalCompare(h, scope, Same, l, r, style);
    EvalCompare(h, scope, NotSame, l, r, style);
    EvalCompare(h, scope, Alike, l, r, style);
    EvalCompare(h, scope, NotAlike, l, r, style);
  }

  /** Quoted text without brackets and equals signs is its content, with either kind of quotes. */
  lemma QuotesSpelled(h: Host, scope: Value, content: string)
    requires forall i :: 0 <= i < |content| ==> content[i] !in {'(', ')', '[', ']', '='}
    ensures Eval(h, scope, "'" + content + "'") == Text(content) && Eval(h, scope, "\"" + content + "\"") == Text(content)
  {
    hide Eval;
    var style := Style("", _ => false);
    BlankNone();
    assert Plain(content);
    EvalPrint(h, scope, Quoted('\'', content), style);
    EvalPrint(h, scope, Quoted('"', content), style);
  }

  /** A quote that is not closed by its own kind is undefined. */
  lemma OpenQuotesSpelled(h: Host, scope: Value, quote: char, rest: string)
    requires quote in {'"', '\''} && Tight([quote] + rest, IsSpace) && Guarded([quote] + rest)
    requires rest == "" || rest[|rest| - 1] != quote
    ensures Eval(h, scope, [quote] + rest) == Undefined
  {
    hide Eval, IsSpace, Guarded;
    EvalLeaf(h, scope, [quote] + rest);
  }

  /** An operator with nothing before it is none: the text is undefined, or for an exclamation mark its negation. */
  lemma LeadingOperatorsSpelled(h: Host, scope: Value, op: Op, r: string)
    requires Guarded(r) && r != "" && r[0] != '=' && !IsSpace(r[|r| - 1])
    ensures Eval(h, scope, op.Text() + r) == if op in {Same, Alike} then Undefined else Bool(true)
  {
    hide Eval, IsSpace, Guarded, Trim, SplitFrom, Leaf, Wraps, Falsy;
    var t := op.Text() + r;
    LeadingNoSplit(op.Text(), r);
    OperatorsAreNotSpace();
    assert Tight(t, IsSpace);
    TightIsTrimmed(t);
    EvalSplits(h, scope, t);
    if op in {Same, Alike} {
      LeadingEquals(h, scope, t);
    } else {
      var rest := t[1..];
      assert rest == op.Text()[1..] + r;
      LeadingNoSplit(op.Text()[1..], r);
      assert Tight(rest, IsSpace);
      TightIsTrimmed(rest);
      EvalSplits(h, scope, rest);
      LeadingEquals(h, scope, rest);
      FalsyUndefined(h);
    }
  }

  lemma FalsyUndefined(h: Host)
    ensures Falsy(h, Undefined)
  {
  }

  lemma OperatorsAreNotSpace()
    ensures !IsSpace('=') && !IsSpace('!')
  {
  }

  lemma LeadingEquals(h: Host, scope: Value, t: string)
    requires t != "" && t[0] == '='
    ensures Leaf(h, scope, t) == Undefined
  {
    hide Eval;
  }

  lemma LeadingNoSplit(op: string, r: string)
    requires op in {"===", "!==", "==", "!=", "="}
    requires Guarded(r) && (r == "" || r[0] != '=')
    ensures SplitFrom(op + r, 0) == None
  {
    hide Guarded, SplitFrom, IsSpace, Depth;
    var t := op + r;
    forall j | 0 <= j < |t| ensures !IsSplit(t, j) {
      if j == 0 {
        TrimEndKeeps("", IsSpace);
        assert t[..0] == "";
      } else if j + 1 < |op| {
        assert t[j - 1] == op[j - 1];
      } else if j + 1 > |op| && j + 1 < |t| && t[j + 1] == '=' {
        GuardedAfter(op, r, j);
      }
    }
    SplitFromNone(t, 0);
  }

  lemma {:induction false} SplitFromNone(t: string, i: nat)
    requires i <= |t| && forall j :: i <= j < |t| ==> !IsSplit(t, j)
    ensures SplitFrom(t, i) == None
    decreases |t| - i
  {
    hide IsSplit;
    if i < |t| {
      SplitFromNone(t, i + 1);
    }
  }

  lemma GuardedAfter(op: string, r: string, j: nat)
    requires op in {"===", "!==", "==", "!=", "="} && Guarded(r)
    requires |op| <= j && j + 1 < |op + r| && (op + r)[j + 1] == '='
    ensures !IsSplit(op + r, j)
  {
    hide IsSpace, Trim;
    var t := op + r;
    var k := j + 1 - |op|;
    assert r[k] == '=';
    TakePast(op, r, k);
    assert |op| + k == j + 1;
    DepthConcat(Both, op, r[..k]);
    FlatOperator(op);
    DepthStep(Both, t, j);
  }

  lemma TakePast(a: string, b: string, n: nat)
    requires n <= |b|
    ensures (a + b)[..|a| + n] == a + b[..n]
  {
  }

  lemma FlatOperator(op: string)
    requires op in {"===", "!==", "==", "!=", "="}
    ensures Depth(Both, op) == 0
  {
    FlatBalanced(Both, op);
  }
}
