/** `#if` guards over `defined` terms (`_eval_if` in tools/check_syscall_coverage.py). */
module Conditionals {

  datatype Op = Or | And

  /** One operand: `defined(X)`, `!defined(X)`, or anything else. */
  datatype Term = Defined(name: string) | NotDefined(name: string) | Strange

  /** An expression as it is written: operands with operators between them. */
  datatype Expr = Expr(first: Term, rest: seq<(Op, Term)>)

  datatype Error = MixedOperators | UnsupportedTerm | UnsupportedDirective | ElseAlone | EndifAlone | Unterminated | BareNumber

  datatype Result<T> = Ok(value: T) | Err(error: Error)

  // ----- The value the C standard gives an expression -----

  predicate TermValue(t: Term, defined: set<string>) {
    match t
    case Defined(n) => n in defined
    case NotDefined(n) => n !in defined
    case Strange => false
  }

  /** Sections 6.5.13 and 6.5.14 of ISO/IEC 9899:2011: `&&` binds tighter than `||`. `factor` is
      the value of the conjunction read so far. */
  predicate Value(factor: bool, rest: seq<(Op, Term)>, defined: set<string>)
    decreases |rest|
  {
    if rest == [] then factor
    else match rest[0].0
      case And => Value(factor && TermValue(rest[0].1, defined), rest[1..], defined)
      case Or => factor || Value(TermValue(rest[0].1, defined), rest[1..], defined)
  }

  predicate Holds(e: Expr, defined: set<string>) {
    Value(TermValue(e.first, defined), e.rest, defined)
  }

  // ----- The text a guard is recorded as -----

  function Operands(e: Expr): (r: seq<Term>)
    ensures |r| == 1 + |e.rest|
  {
    [e.first] + seq(|e.rest|, i requires 0 <= i < |e.rest| => e.rest[i].1)
  }

  predicate Has(e: Expr, op: Op) {
    exists i :: 0 <= i < |e.rest| && e.rest[i].0 == op
  }

  predicate Mixed(e: Expr) {
    Has(e, Or) && Has(e, And)
  }

  predicate AllReadable(e: Expr) {
    forall i :: 0 <= i < |Operands(e)| ==> !Operands(e)[i].Strange?
  }

  predicate Evaluable(e: Expr) {
    !Mixed(e) && AllReadable(e)
  }

  function Shown(t: Term): string {
    match t
    case Defined(n) => n
    case NotDefined(n) => "!" + n
    case Strange => ""
  }

  /** The strings with `sep` between them. */
  function Join(sep: string, parts: seq<string>): string {
    if parts == [] then "" else if |parts| == 1 then parts[0] else Join(sep, parts[..|parts| - 1]) + sep + parts[|parts| - 1]
  }

  function Separator(e: Expr): string {
    if Has(e, Or) then " || " else " && "
  }

  function ShownAll(ts: seq<Term>): (r: seq<string>)
    ensures |r| == |ts|
  {
    seq(|ts|, i requires 0 <= i < |ts| => Shown(ts[i]))
  }

  /** The canonical text of a guard. */
  function Canonical(e: Expr): string {
    Join(Separator(e), ShownAll(Operands(e)))
  }

  // ----- Evaluation as the tool does it -----

  /** All of the values from `i` on, or one of them. */
  predicate AnyFrom(live: seq<bool>, i: nat)
    requires i <= |live|
  {
    exists j :: i <= j < |live| && live[j]
  }

  predicate AllFrom(live: seq<bool>, i: nat)
    requires i <= |live|
  {
    forall j :: i <= j < |live| ==> live[j]
  }

  ghost predicate Values(live: seq<bool>, e: Expr, defined: set<string>) {
    && |live| == 1 + |e.rest|
    && live[0] == TermValue(e.first, defined)
    && forall i :: 0 <= i < |e.rest| ==> live[i + 1] == TermValue(e.rest[i].1, defined)
  }

  lemma {:induction false} AnyIsValue(live: seq<bool>, e: Expr, defined: set<string>, i: nat)
    requires Values(live, e, defined) && !Has(e, And) && i <= |e.rest|
    ensures Value(live[i], e.rest[i..], defined) == AnyFrom(live, i)
    decreases |e.rest| - i
  {
    if i < |e.rest| {
      AnyIsValue(live, e, defined, i + 1);
      assert e.rest[i..][0] == e.rest[i] && e.rest[i..][1..] == e.rest[i + 1..];
      assert e.rest[i].0 == Or;
    }
  }

  lemma {:induction false} AllIsValue(live: seq<bool>, e: Expr, defined: set<string>, i: nat, factor: bool)
    requires Values(live, e, defined) && !Has(e, Or) && i <= |e.rest|
    ensures Value(factor && live[i], e.rest[i..], defined) == (factor && AllFrom(live, i))
    decreases |e.rest| - i
  {
    if i < |e.rest| {
      AllIsValue(live, e, defined, i + 1, factor && live[i]);
      assert e.rest[i..][0] == e.rest[i] && e.rest[i..][1..] == e.rest[i + 1..];
      assert e.rest[i].0 == And;
      assert AllFrom(live, i) <==> live[i] && AllFrom(live, i + 1);
    }
  }

  /** With one operator in it, an expression has the value C gives it; it is refused when the
      operators are mixed or an operand is not a `defined` term, and for nothing else. */
  method EvalIf(e: Expr, defined: set<string>) returns (r: Result<(bool, string)>)
    ensures r == if Mixed(e) then Err(MixedOperators)
                 else if !AllReadable(e) then Err(UnsupportedTerm)
                 else Ok((Holds(e, defined), Canonical(e)))
  {
    hide Join, Value;
    var hasOr, hasAnd := Has(e, Or), Has(e, And);
    if hasOr && hasAnd { return Err(MixedOperators); }
    var parts := Operands(e);
    var live: seq<bool>, names: seq<string> := [], [];
    for i := 0 to |parts|
      invariant |live| == i == |names|
      invariant forall j :: 0 <= j < i ==> !parts[j].Strange? && live[j] == TermValue(parts[j], defined) && names[j] == Shown(parts[j])
    {
      if parts[i].Strange? { return Err(UnsupportedTerm); }
      names := names + [Shown(parts[i])];
      live := live + [TermValue(parts[i], defined)];
    }
    assert names == ShownAll(parts);
    assert Values(live, e, defined) by {
      assert forall i :: 0 <= i < |e.rest| ==> parts[i + 1] == e.rest[i].1;
    }
    assert e.rest[0..] == e.rest;
    AnyWhenOr(live, e, defined);
    return Ok((if hasOr then AnyFrom(live, 0) else AllFrom(live, 0), Join(if hasOr then " || " else " && ", names)));
  }

  lemma AnyWhenOr(live: seq<bool>, e: Expr, defined: set<string>)
    requires Values(live, e, defined) && !Mixed(e)
    ensures Holds(e, defined) == if Has(e, Or) then AnyFrom(live, 0) else AllFrom(live, 0)
  {
    assert e.rest[0..] == e.rest;
    if Has(e, Or) {
      AnyIsValue(live, e, defined, 0);
    } else {
      AllIsValue(live, e, defined, 0, true);
    }
  }

  // ----- A guard that gains or loses a term is recorded differently -----

  predicate IsName(s: string) {
    s != "" && forall i :: 0 <= i < |s| ==> s[i] != ' ' && s[i] != '!'
  }

  predicate NamesOk(e: Expr) {
    forall i :: 0 <= i < |Operands(e)| ==> !Operands(e)[i].Strange? && IsName(Operands(e)[i].name)
  }

  predicate NoSpace(s: string) {
    forall i :: 0 <= i < |s| ==> s[i] != ' '
  }

  lemma NoLaterSpace(a: string, x: string, k: nat)
    requires NoSpace(x) && |a| < k < |a + " " + x|
    ensures (a + " " + x)[k] != ' '
  {
    assert (a + " " + x)[k] == x[k - |a| - 1];
  }

  /** Cutting a text at its last space. */
  lemma LastSpaceCuts(a: string, b: string, x: string, y: string)
    requires NoSpace(x) && NoSpace(y) && a + " " + x == b + " " + y
    ensures a == b && x == y
  {
    var s, t := a + " " + x, b + " " + y;
    if |a| < |b| {
      NoLaterSpace(a, x, |b|);
    } else if |b| < |a| {
      NoLaterSpace(b, y, |a|);
    }
    assert a == s[..|a|] && x == s[|a| + 1..];
    assert b == t[..|b|] && y == t[|b| + 1..];
  }

  ghost predicate IsSeparator(s: string) {
    s == " || " || s == " && "
  }

  lemma JoinCuts(a: string, s: string, x: string, b: string, t: string, y: string)
    requires NoSpace(x) && NoSpace(y) && IsSeparator(s) && IsSeparator(t) && a + s + x == b + t + y
    ensures a == b && s == t && x == y
  {
    var s3, t3 := s[..3], t[..3];
    assert s == s3 + " " && t == t3 + " ";
    assert a + s + x == (a + s3) + " " + x && b + t + y == (b + t3) + " " + y;
    LastSpaceCuts(a + s3, b + t3, x, y);
    assert |a| == |b|;
    assert a == (a + s3)[..|a|] && b == (b + t3)[..|b|];
    assert s3 == (a + s3)[|a|..] && t3 == (b + t3)[|b|..];
  }

  lemma JoinHasSpace(s: string, p: seq<string>)
    requires |p| > 1 && IsSeparator(s)
    ensures !NoSpace(Join(s, p))
  {
    var a := Join(s, p[..|p| - 1]);
    assert Join(s, p)[|a|] == ' ';
  }

  lemma {:induction false} JoinIsInjective(s: string, p: seq<string>, t: string, q: seq<string>)
    requires |p| > 0 && |q| > 0 && IsSeparator(s) && IsSeparator(t)
    requires (forall i :: 0 <= i < |p| ==> NoSpace(p[i])) && (forall i :: 0 <= i < |q| ==> NoSpace(q[i]))
    requires Join(s, p) == Join(t, q)
    ensures p == q && (|p| > 1 ==> s == t)
    decreases |p|
  {
    if |p| > 1 {
      JoinHasSpace(s, p);
    }
    if |q| > 1 {
      JoinHasSpace(t, q);
    }
    if |p| > 1 && |q| > 1 {
      var m, n := |p| - 1, |q| - 1;
      JoinCuts(Join(s, p[..m]), s, p[m], Join(t, q[..n]), t, q[n]);
      JoinIsInjective(s, p[..m], t, q[..n]);
      assert p == p[..m] + [p[m]] && q == q[..n] + [q[n]];
    }
  }

  lemma ShownStart(t: Term)
    requires !t.Strange? && IsName(t.name)
    ensures Shown(t) != "" && (Shown(t)[0] == '!' <==> t.NotDefined?)
  {
  }

  lemma ShownIsInjective(t: Term, u: Term)
    requires !t.Strange? && !u.Strange? && IsName(t.name) && IsName(u.name) && Shown(t) == Shown(u)
    ensures t == u
  {
    ShownStart(t);
    ShownStart(u);
    if t.NotDefined? {
      assert Shown(t)[1..] == t.name && Shown(u)[1..] == u.name;
    }
  }

  /** Guards that are recorded alike have the same operands, in order, and, where there is more
      than one, the same operator. */
  lemma CanonicalIsInjective(e: Expr, f: Expr)
    requires NamesOk(e) && NamesOk(f) && Canonical(e) == Canonical(f)
    ensures Operands(e) == Operands(f) && (|Operands(e)| > 1 ==> Has(e, Or) == Has(f, Or))
  {
    hide Join;
    var p, q := ShownAll(Operands(e)), ShownAll(Operands(f));
    forall i | 0 <= i < |p|
      ensures NoSpace(p[i])
    {
      assert IsName(Operands(e)[i].name);
    }
    forall i | 0 <= i < |q|
      ensures NoSpace(q[i])
    {
      assert IsName(Operands(f)[i].name);
    }
    JoinIsInjective(Separator(e), p, Separator(f), q);
    forall i | 0 <= i < |p|
      ensures Operands(e)[i] == Operands(f)[i]
    {
      assert p[i] == q[i];
      ShownIsInjective(Operands(e)[i], Operands(f)[i]);
    }
  }
}
