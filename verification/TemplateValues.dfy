/** Values that mention variables themselves: when the passes are still one substitution. */
module TemplateValues {
  import opened Options
  import opened Substitution

  datatype TemplateBinding = TemplateBinding(name: string, value: seq<Piece>)

  predicate Templates(bs: seq<TemplateBinding>) {
    forall i :: 0 <= i < |bs| ==> VariableName(bs[i].name) && WellFormed(bs[i].value)
  }

  function Flat(bs: seq<TemplateBinding>): (r: seq<Binding>)
    ensures |r| == |bs| && forall i :: 0 <= i < |r| ==> r[i] == Binding(bs[i].name, Render(bs[i].value))
  {
    seq(|bs|, i requires 0 <= i < |bs| => Binding(bs[i].name, Render(bs[i].value)))
  }

  /** No value mentions the name of a later binding. */
  predicate NoLaterMention(bs: seq<TemplateBinding>) {
    forall i, j :: 0 <= i < j < |bs| ==> Variable(bs[j].name) !in bs[i].value
  }

  // ---------- Passes on templates ----------

  function Expand(ps: seq<Piece>, b: TemplateBinding): seq<Piece> {
    if ps == [] then []
    else (if ps[0] == Variable(b.name) then b.value else [ps[0]]) + Expand(ps[1..], b)
  }

  function ExpandAll(ps: seq<Piece>, bs: seq<TemplateBinding>): seq<Piece>
    decreases |bs|
  {
    if bs == [] then ps else ExpandAll(Expand(ps, bs[0]), bs[1..])
  }

  lemma {:induction false} RenderConcat(a: seq<Piece>, b: seq<Piece>)
    ensures Render(a + b) == Render(a) + Render(b)
  {
    if a == [] {
      assert a + b == b;
    } else {
      assert (a + b)[0] == a[0] && (a + b)[1..] == a[1..] + b;
      RenderConcat(a[1..], b);
    }
  }

  lemma RenderOne(p: Piece)
    ensures Render([p]) == match p case Literal(text) => text case Variable(name) => Pattern(name)
  {
    assert [p][1..] == [];
  }

  lemma {:induction false} ExpandRenders(ps: seq<Piece>, b: TemplateBinding)
    ensures Render(Expand(ps, b)) == Render(Simultaneous(ps, [Binding(b.name, Render(b.value))]))
  {
    if ps != [] {
      var flat := [Binding(b.name, Render(b.value))];
      var first := if ps[0] == Variable(b.name) then b.value else [ps[0]];
      ExpandRenders(ps[1..], b);
      RenderConcat(first, Expand(ps[1..], b));
      RenderOne(ps[0]);
      assert Simultaneous(ps, flat)[1..] == Simultaneous(ps[1..], flat);
      if ps[0].Variable? {
        assert Lookup(flat, ps[0].name) == if ps[0].name == b.name then Some(Render(b.value)) else None;
      }
    }
  }

  /** A variable after a pass was there before it or comes from the value put in. */
  lemma {:induction false} ExpandMembers(ps: seq<Piece>, b: TemplateBinding, p: Piece)
    requires p in Expand(ps, b)
    ensures (p in ps && p != Variable(b.name)) || (Variable(b.name) in ps && p in b.value)
  {
    if p in Expand(ps[1..], b) {
      ExpandMembers(ps[1..], b, p);
    }
  }

  lemma ExpandWellFormed(ps: seq<Piece>, b: TemplateBinding)
    requires WellFormed(ps) && WellFormed(b.value)
    ensures WellFormed(Expand(ps, b))
  {
    forall i | 0 <= i < |Expand(ps, b)|
      ensures match Expand(ps, b)[i] case Literal(text) => '$' !in text case Variable(name) => VariableName(name)
    {
      ExpandMembers(ps, b, Expand(ps, b)[i]);
    }
  }

  /** The passes over the text are the passes over the template. */
  lemma {:induction false} PassesExpand(ps: seq<Piece>, bs: seq<TemplateBinding>)
    requires WellFormed(ps) && Templates(bs)
    ensures Passes(Render(ps), Replacements(Flat(bs))) == Render(ExpandAll(ps, bs))
    decreases |bs|
  {
    if bs != [] {
      PassSubstitutes(ps, Flat(bs)[0]);
      ExpandRenders(ps, bs[0]);
      ExpandWellFormed(ps, bs[0]);
      PassesExpand(Expand(ps, bs[0]), bs[1..]);
      assert Replacements(Flat(bs))[1..] == Replacements(Flat(bs[1..]));
    }
  }

  lemma {:induction false} ExpandConcat(a: seq<Piece>, b: seq<Piece>, t: TemplateBinding)
    ensures Expand(a + b, t) == Expand(a, t) + Expand(b, t)
  {
    if a == [] {
      assert a + b == b;
    } else {
      var first := if a[0] == Variable(t.name) then t.value else [a[0]];
      assert (a + b)[0] == a[0] && (a + b)[1..] == a[1..] + b;
      ExpandConcat(a[1..], b, t);
      assert first + (Expand(a[1..], t) + Expand(b, t)) == first + Expand(a[1..], t) + Expand(b, t);
    }
  }

  lemma {:induction false} ExpandAllConcat(a: seq<Piece>, b: seq<Piece>, bs: seq<TemplateBinding>)
    ensures ExpandAll(a + b, bs) == ExpandAll(a, bs) + ExpandAll(b, bs)
    decreases |bs|
  {
    if bs != [] {
      ExpandConcat(a, b, bs[0]);
      ExpandAllConcat(Expand(a, bs[0]), Expand(b, bs[0]), bs[1..]);
    }
  }

  lemma {:induction false} UnmentionedStays(ps: seq<Piece>, b: TemplateBinding)
    requires Variable(b.name) !in ps
    ensures Expand(ps, b) == ps
  {
    if ps != [] {
      UnmentionedStays(ps[1..], b);
    }
  }

  lemma {:induction false} UnmentionedAllStay(ps: seq<Piece>, bs: seq<TemplateBinding>)
    requires forall j :: 0 <= j < |bs| ==> Variable(bs[j].name) !in ps
    ensures ExpandAll(ps, bs) == ps
    decreases |bs|
  {
    if bs != [] {
      UnmentionedStays(ps, bs[0]);
      UnmentionedAllStay(ps, bs[1..]);
    }
  }

  // ---------- Enough: no later mention ----------

  lemma ExpandOne(p: Piece, b: TemplateBinding)
    ensures Expand([p], b) == if p == Variable(b.name) then b.value else [p]
  {
    assert [p][1..] == [];
    assert b.value + [] == b.value;
  }

  lemma {:induction false} PieceExpands(p: Piece, bs: seq<TemplateBinding>)
    requires NoLaterMention(bs)
    ensures Render(ExpandAll([p], bs)) == Render([SubstitutePiece(p, Flat(bs))])
    decreases |bs|
  {
    if bs != [] {
      ExpandOne(p, bs[0]);
      assert Flat(bs)[1..] == Flat(bs[1..]);
      if p == Variable(bs[0].name) {
        UnmentionedAllStay(bs[0].value, bs[1..]);
        RenderOne(Literal(Render(bs[0].value)));
      } else {
        PieceExpands(p, bs[1..]);
      }
    }
  }

  lemma {:induction false} EachPieceExpands(ps: seq<Piece>, bs: seq<TemplateBinding>)
    requires NoLaterMention(bs)
    ensures Render(ExpandAll(ps, bs)) == Render(Simultaneous(ps, Flat(bs)))
    decreases |ps|
  {
    if ps == [] {
      UnmentionedAllStay([], bs);
    } else {
      var s := Simultaneous(ps, Flat(bs));
      assert ps == [ps[0]] + ps[1..] && s == [s[0]] + s[1..];
      assert s[1..] == Simultaneous(ps[1..], Flat(bs));
      ExpandAllConcat([ps[0]], ps[1..], bs);
      RenderConcat(ExpandAll([ps[0]], bs), ExpandAll(ps[1..], bs));
      PieceExpands(ps[0], bs);
      EachPieceExpands(ps[1..], bs);
      RenderConcat([s[0]], s[1..]);
    }
  }

  // ---------- Needed, when values do not depend on each other in a circle ----------

  /** Names mentioned by a value rank below the name it is bound to. */
  ghost predicate Ranked(bs: seq<TemplateBinding>, rank: string -> nat) {
    forall i, n :: 0 <= i < |bs| && Variable(n) in bs[i].value ==> rank(n) < rank(bs[i].name)
  }

  predicate Bound(bs: seq<TemplateBinding>, n: string) {
    exists k :: 0 <= k < |bs| && bs[k].name == n
  }

  predicate Distinct(bs: seq<TemplateBinding>) {
    forall i, j :: 0 <= i < j < |bs| ==> bs[i].name != bs[j].name
  }

  lemma BoundFirstOrLater(bs: seq<TemplateBinding>, n: string)
    requires bs != []
    ensures Bound(bs, n) <==> bs[0].name == n || Bound(bs[1..], n)
  {
    assert forall k :: 0 <= k < |bs| - 1 ==> bs[1..][k].name == bs[k + 1].name;
    if k :| 1 <= k < |bs| && bs[k].name == n {
      assert bs[1..][k - 1].name == n;
    }
  }

  /** A bound name that no other bound name in the text outranks does not survive the passes. */
  lemma {:induction false} DropsOut(ps: seq<Piece>, bs: seq<TemplateBinding>, m: string, rank: string -> nat)
    requires Ranked(bs, rank)
    requires forall n :: Variable(n) in ps && Bound(bs, n) ==> rank(n) <= rank(m)
    requires Bound(bs, m) || Variable(m) !in ps
    ensures Variable(m) !in ExpandAll(ps, bs)
    decreases |bs|
  {
    if bs != [] {
      var next := Expand(ps, bs[0]);
      assert Bound(bs, bs[0].name);
      assert forall n :: Bound(bs[1..], n) ==> Bound(bs, n);
      forall n | Variable(n) in next ensures Bound(bs[1..], n) ==> rank(n) <= rank(m) {
        ExpandMembers(ps, bs[0], Variable(n));
      }
      BoundFirstOrLater(bs, m);
      if !Bound(bs[1..], m) && Variable(m) in next {
        ExpandMembers(ps, bs[0], Variable(m));
        assert false;
      }
      DropsOut(next, bs[1..], m, rank);
    }
  }

  /** Among the bound names a template mentions, one that ranks highest. */
  lemma Highest(ps: seq<Piece>, bs: seq<TemplateBinding>, j: nat, rank: string -> nat) returns (m: string)
    requires j < |bs| && Variable(bs[j].name) in ps
    ensures Bound(bs, m) && Variable(m) in ps
    ensures forall n :: Variable(n) in ps && Bound(bs, n) ==> rank(n) <= rank(m)
  {
    m := bs[j].name;
    for i := 0 to |bs|
      invariant Bound(bs, m) && Variable(m) in ps
      invariant forall l :: 0 <= l < i && Variable(bs[l].name) in ps ==> rank(bs[l].name) <= rank(m)
    {
      if Variable(bs[i].name) in ps && rank(bs[i].name) > rank(m) {
        m := bs[i].name;
      }
    }
  }

  lemma {:induction false} DroppingShortens(ps: seq<Piece>, m: string)
    ensures var t := Render(Simultaneous(ps, [Binding(m, "")]));
            |t| <= |Render(ps)| && (|t| < |Render(ps)| <==> Variable(m) in ps)
  {
    if ps != [] {
      var flat := [Binding(m, "")];
      DroppingShortens(ps[1..], m);
      assert Simultaneous(ps, flat)[1..] == Simultaneous(ps[1..], flat);
      assert ps == [ps[0]] + ps[1..];
      if ps[0].Variable? {
        assert Lookup(flat, ps[0].name) == if ps[0].name == m then Some("") else None;
      }
    }
  }

  /** Templates with the same text mention the same variables. */
  lemma TextTellsMentions(a: seq<Piece>, b: seq<Piece>, m: string)
    requires WellFormed(a) && WellFormed(b) && VariableName(m) && Render(a) == Render(b)
    ensures Variable(m) in a <==> Variable(m) in b
  {
    PassSubstitutes(a, Binding(m, ""));
    PassSubstitutes(b, Binding(m, ""));
    DroppingShortens(a, m);
    DroppingShortens(b, m);
  }

  lemma {:induction false} ExpandAllWellFormed(ps: seq<Piece>, bs: seq<TemplateBinding>)
    requires WellFormed(ps) && Templates(bs)
    ensures WellFormed(ExpandAll(ps, bs))
    decreases |bs|
  {
    if bs != [] {
      ExpandWellFormed(ps, bs[0]);
      ExpandAllWellFormed(Expand(ps, bs[0]), bs[1..]);
    }
  }

  /** A variable is left alone up to its binding, whose value later passes then work on. */
  lemma {:induction false} BoundVariable(bs: seq<TemplateBinding>, i: nat)
    requires Distinct(bs) && i < |bs|
    ensures ExpandAll([Variable(bs[i].name)], bs) == ExpandAll(bs[i].value, bs[i + 1..])
    ensures Lookup(Flat(bs), bs[i].name) == Some(Render(bs[i].value))
    decreases |bs|
  {
    ExpandOne(Variable(bs[i].name), bs[0]);
    assert Flat(bs)[1..] == Flat(bs[1..]);
    if i > 0 {
      BoundVariable(bs[1..], i - 1);
      assert bs[1..][i..] == bs[i + 1..];
    }
  }

  /** Passes over a template that mentions a bound name change its text. */
  lemma MentionedIsChanged(ps: seq<Piece>, bs: seq<TemplateBinding>, j: nat, rank: string -> nat)
    requires WellFormed(ps) && Templates(bs) && Ranked(bs, rank)
    requires j < |bs| && Variable(bs[j].name) in ps
    ensures Render(ExpandAll(ps, bs)) != Render(ps)
  {
    var m := Highest(ps, bs, j, rank);
    DropsOut(ps, bs, m, rank);
    ExpandAllWellFormed(ps, bs);
    if Render(ExpandAll(ps, bs)) == Render(ps) {
      TextTellsMentions(ExpandAll(ps, bs), ps, m);
    }
  }

  lemma OneVariable(name: string, bs: seq<Binding>, value: string)
    requires Lookup(bs, name) == Some(value)
    ensures Render(Simultaneous([Variable(name)], bs)) == value
  {
    assert Simultaneous([Variable(name)], bs) == [Literal(value)];
    RenderOne(Literal(value));
  }

  /** A value that mentions a later name is changed by the later passes. */
  lemma LaterMentionMatters(bs: seq<TemplateBinding>, i: nat, j: nat, rank: string -> nat)
    requires Templates(bs) && Distinct(bs) && Ranked(bs, rank)
    requires i < j < |bs| && Variable(bs[j].name) in bs[i].value
    ensures var ps := [Variable(bs[i].name)];
            Passes(Render(ps), Replacements(Flat(bs))) != Render(Simultaneous(ps, Flat(bs)))
  {
    assert bs[i + 1..][j - i - 1] == bs[j];
    MentionedIsChanged(bs[i].value, bs[i + 1..], j - i - 1, rank);
    BoundVariable(bs, i);
    PassesExpand([Variable(bs[i].name)], bs);
    OneVariable(bs[i].name, Flat(bs), Render(bs[i].value));
  }

  /**
   * Bindings whose values do not depend on each other in a circle: the passes equal the
   * simultaneous substitution on every template exactly when no value mentions a later name.
   */
  lemma PassesSubstituteTemplates(bs: seq<TemplateBinding>, rank: string -> nat)
    requires Templates(bs) && Distinct(bs) && Ranked(bs, rank)
    ensures NoLaterMention(bs) <==>
            forall ps :: WellFormed(ps) ==>
              Passes(Render(ps), Replacements(Flat(bs))) == Render(Simultaneous(ps, Flat(bs)))
  {
    if NoLaterMention(bs) {
      forall ps | WellFormed(ps)
        ensures Passes(Render(ps), Replacements(Flat(bs))) == Render(Simultaneous(ps, Flat(bs)))
      {
        WithoutLaterMention(ps, bs);
      }
    } else {
      var i, j :| 0 <= i < j < |bs| && Variable(bs[j].name) in bs[i].value;
      LaterMentionMatters(bs, i, j, rank);
      assert WellFormed([Variable(bs[i].name)]);
    }
  }

  /** Without later mention they are equal even if names repeat or values depend on each other. */
  lemma WithoutLaterMention(ps: seq<Piece>, bs: seq<TemplateBinding>)
    requires WellFormed(ps) && Templates(bs) && NoLaterMention(bs)
    ensures Passes(Render(ps), Replacements(Flat(bs))) == Render(Simultaneous(ps, Flat(bs)))
  {
    PassesExpand(ps, bs);
    EachPieceExpands(ps, bs);
  }
}
