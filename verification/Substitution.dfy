/**
 * The replacement of launch variables in a parameter file: one pass of find-and-replace for
 * each pair of a pattern and a value, against one simultaneous substitution.
 */
module Substitution {
  import opened Options

  predicate OccursAt(s: string, pattern: string, i: nat) {
    i + |pattern| <= |s| && s[i..i + |pattern|] == pattern
  }

  /** The first occurrence at or after a position. */
  method Find(s: string, pattern: string, from: nat) returns (r: Option<nat>)
    requires from <= |s|
    ensures r.Some? ==> from <= r.value && OccursAt(s, pattern, r.value)
    ensures forall i :: from <= i && (r.Some? ==> i < r.value) ==> !OccursAt(s, pattern, i)
  {
    var i := from;
    while i + |pattern| <= |s|
      invariant forall j :: from <= j < i ==> !OccursAt(s, pattern, j)
      decreases |s| - i
    {
      if s[i..i + |pattern|] == pattern {
        return Some(i);
      }
      i := i + 1;
    }
    return None;
  }

  /** Left to right, each occurrence replaced and the value put in its place not read again. */
  function ReplaceAll(s: string, pattern: string, value: string): string
    requires pattern != ""
    decreases |s|
  {
    if s == "" then ""
    else if OccursAt(s, pattern, 0) then value + ReplaceAll(s[|pattern|..], pattern, value)
    else [s[0]] + ReplaceAll(s[1..], pattern, value)
  }

  lemma {:induction false} CopiesUpToOccurrence(s: string, pattern: string, value: string, n: nat)
    requires pattern != "" && n <= |s|
    requires forall i :: 0 <= i < n ==> !OccursAt(s, pattern, i)
    ensures ReplaceAll(s, pattern, value) == s[..n] + ReplaceAll(s[n..], pattern, value)
    decreases |s|
  {
    if n > 0 {
      forall i | 0 <= i < n - 1 ensures !OccursAt(s[1..], pattern, i) {
        assert !OccursAt(s, pattern, i + 1);
      }
      assert !OccursAt(s, pattern, 0);
      CopiesUpToOccurrence(s[1..], pattern, value, n - 1);
      assert s[1..][n - 1..] == s[n..];
      assert s[..n] == [s[0]] + s[1..][..n - 1];
    }
  }

  lemma ReplacesAtOccurrence(s: string, pattern: string, value: string)
    requires pattern != "" && OccursAt(s, pattern, 0)
    ensures ReplaceAll(s, pattern, value) == value + ReplaceAll(s[|pattern|..], pattern, value)
  {
  }

  lemma OccursInSuffix(s: string, pattern: string, from: nat, i: nat)
    requires from <= |s|
    ensures OccursAt(s[from..], pattern, i) <==> OccursAt(s, pattern, from + i)
  {
    if from + i + |pattern| <= |s| {
      assert s[from..][i..i + |pattern|] == s[from + i..from + i + |pattern|];
    }
  }

  /** From one position, the text up to the next occurrence at n is copied, the occurrence replaced. */
  lemma PassStep(s: string, pattern: string, value: string, from: nat, n: nat)
    requires pattern != "" && from <= n && OccursAt(s, pattern, n)
    requires forall i :: from <= i < n ==> !OccursAt(s, pattern, i)
    ensures ReplaceAll(s[from..], pattern, value)
            == s[from..n] + (value + ReplaceAll(s[n + |pattern|..], pattern, value))
  {
    var ahead := s[from..];
    forall i | 0 <= i < n - from ensures !OccursAt(ahead, pattern, i) {
      OccursInSuffix(s, pattern, from, i);
    }
    CopiesUpToOccurrence(ahead, pattern, value, n - from);
    assert ahead[..n - from] == s[from..n];
    assert ahead[n - from..] == s[n..];
    OccursInSuffix(s, pattern, n, 0);
    ReplacesAtOccurrence(s[n..], pattern, value);
    assert s[n..][|pattern|..] == s[n + |pattern|..];
  }

  lemma PassEnd(s: string, pattern: string, value: string, from: nat)
    requires pattern != "" && from <= |s|
    requires forall i :: from <= i ==> !OccursAt(s, pattern, i)
    ensures ReplaceAll(s[from..], pattern, value) == s[from..]
  {
    var ahead := s[from..];
    forall i | 0 <= i < |ahead| ensures !OccursAt(ahead, pattern, i) {
      OccursInSuffix(s, pattern, from, i);
    }
    CopiesUpToOccurrence(ahead, pattern, value, |ahead|);
  }

  /** One pass over the content. */
  method ReplacePass(text: string, pattern: string, value: string) returns (content: string)
    requires pattern != ""
    ensures content == ReplaceAll(text, pattern, value)
  {
    content := text;
    var pos := 0;
    while true
      invariant pos <= |content|
      invariant content[..pos] + ReplaceAll(content[pos..], pattern, value) == ReplaceAll(text, pattern, value)
      decreases |content| - pos
    {
      var found := Find(content, pattern, pos);
      if found.None? {
        PassEnd(content, pattern, value, pos);
        assert content[..pos] + content[pos..] == content;
        return;
      }
      var n := found.value;
      ghost var done, copied, rest := content[..pos], content[pos..n], content[n + |pattern|..];
      PassStep(content, pattern, value, pos, n);
      Associates(done, copied, value, ReplaceAll(rest, pattern, value));
      content := content[..n] + value + content[n + |pattern|..];
      pos := n + |value|;
      assert content[..pos] == done + copied + value;
      assert content[pos..] == rest;
    }
  }

  lemma Associates(a: string, b: string, c: string, d: string)
    ensures a + (b + (c + d)) == a + b + c + d
  {
  }

  datatype Replacement = Replacement(pattern: string, value: string)

  function Passes(text: string, rs: seq<Replacement>): string
    requires forall i :: 0 <= i < |rs| ==> rs[i].pattern != ""
    decreases |rs|
  {
    if rs == [] then text
    else Passes(ReplaceAll(text, rs[0].pattern, rs[0].value), rs[1..])
  }

  /** All replacements, each applied to what the ones before it left. */
  method ResolveYamlVars(text: string, replacements: seq<Replacement>) returns (content: string)
    requires forall i :: 0 <= i < |replacements| ==> replacements[i].pattern != ""
    ensures content == Passes(text, replacements)
  {
    content := text;
    for i := 0 to |replacements|
      invariant Passes(content, replacements[i..]) == Passes(text, replacements)
    {
      assert replacements[i..][1..] == replacements[i + 1..];
      content := ReplacePass(content, replacements[i].pattern, replacements[i].value);
    }
  }

  // ---------- Templates ----------

  datatype Piece = Literal(text: string) | Variable(name: string)

  const OPEN := "(var "

  function Pattern(name: string): (p: string)
    ensures p != "" && p == "$(var " + name + ")"
  {
    "$" + OPEN + name + ")"
  }

  function Render(ps: seq<Piece>): string {
    if ps == [] then ""
    else (match ps[0] case Literal(text) => text case Variable(name) => Pattern(name)) + Render(ps[1..])
  }

  /** Literals without '$', and variable names without '$' and ')'. */
  predicate WellFormed(ps: seq<Piece>) {
    forall i :: 0 <= i < |ps| ==>
      match ps[i]
      case Literal(text) => '$' !in text
      case Variable(name) => VariableName(name)
  }

  predicate VariableName(name: string) {
    '$' !in name && ')' !in name
  }

  /** A value for the variable of a name. */
  datatype Binding = Binding(name: string, value: string)

  predicate Bindings(bs: seq<Binding>) {
    forall i :: 0 <= i < |bs| ==> ')' !in bs[i].name && '$' !in bs[i].value
  }

  function Replacements(bs: seq<Binding>): (rs: seq<Replacement>)
    ensures |rs| == |bs|
    ensures forall i :: 0 <= i < |rs| ==> rs[i] == Replacement(Pattern(bs[i].name), bs[i].value)
  {
    seq(|bs|, i requires 0 <= i < |bs| => Replacement(Pattern(bs[i].name), bs[i].value))
  }

  /** The value the first binding of a name gives. */
  function Lookup(bs: seq<Binding>, name: string): Option<string> {
    if bs == [] then None
    else if bs[0].name == name then Some(bs[0].value)
    else Lookup(bs[1..], name)
  }

  function SubstitutePiece(p: Piece, bs: seq<Binding>): Piece {
    if p.Variable? && Lookup(bs, p.name).Some? then Literal(Lookup(bs, p.name).value) else p
  }

  /** Every variable replaced at once by the value bound to it. */
  function Simultaneous(ps: seq<Piece>, bs: seq<Binding>): (r: seq<Piece>)
    ensures |r| == |ps| && forall i :: 0 <= i < |r| ==> r[i] == SubstitutePiece(ps[i], bs)
  {
    seq(|ps|, i requires 0 <= i < |ps| => SubstitutePiece(ps[i], bs))
  }

  // ---------- One pass is one substitution ----------

  lemma CopiesText(text: string, rest: string, pattern: string, value: string)
    requires pattern != "" && pattern[0] == '$' && '$' !in text
    ensures ReplaceAll(text + rest, pattern, value) == text + ReplaceAll(rest, pattern, value)
  {
    var s := text + rest;
    forall i | 0 <= i < |text| ensures !OccursAt(s, pattern, i) {
      DiffersAt(s, pattern, i, 0);
    }
    CopiesUpToOccurrence(s, pattern, value, |text|);
    assert s[..|text|] == text && s[|text|..] == rest;
  }

  lemma DiffersAt(s: string, pattern: string, i: nat, k: nat)
    requires i + k < |s| && k < |pattern| && s[i + k] != pattern[k]
    ensures !OccursAt(s, pattern, i)
  {
    if i + |pattern| <= |s| {
      assert s[i..i + |pattern|][k] == s[i + k];
    }
  }

  lemma PatternCharacters(name: string, rest: string)
    ensures var s := Pattern(name) + rest;
            && |s| == 7 + |name| + |rest| && s[6 + |name|] == ')'
            && forall i :: 0 <= i < |name| ==> s[6 + i] == name[i]
  {
    assert |"$" + OPEN| == 6;
  }

  /** A pattern is found at a rendered variable exactly when it is that variable's. */
  lemma FindsOwnVariable(name: string, other: string, rest: string)
    requires ')' !in name && ')' !in other
    ensures OccursAt(Pattern(name) + rest, Pattern(other), 0) <==> name == other
  {
    var s, p := Pattern(name) + rest, Pattern(other);
    PatternCharacters(name, rest);
    PatternCharacters(other, "");
    assert p + "" == p;
    if name == other {
      assert s[0..|p|] == p;
    } else if |name| < |other| {
      DiffersAt(s, p, 0, 6 + |name|);
    } else if |other| < |name| {
      DiffersAt(s, p, 0, 6 + |other|);
    } else {
      var k :| 0 <= k < |name| && name[k] != other[k];
      DiffersAt(s, p, 0, 6 + k);
    }
  }

  lemma PassesVariable(name: string, b: Binding, rest: string)
    requires VariableName(name) && ')' !in b.name
    ensures ReplaceAll(Pattern(name) + rest, Pattern(b.name), b.value)
            == (if name == b.name then b.value else Pattern(name)) + ReplaceAll(rest, Pattern(b.name), b.value)
  {
    var s, tail := Pattern(name) + rest, OPEN + name + ")";
    FindsOwnVariable(name, b.name, rest);
    if name == b.name {
      assert s[|Pattern(name)|..] == rest;
    } else {
      assert s[1..] == tail + rest;
      CopiesText(tail, rest, Pattern(b.name), b.value);
      assert Pattern(name) == ['$'] + tail;
      assert s[0] == '$';
    }
  }

  lemma {:induction false} PassSubstitutes(ps: seq<Piece>, b: Binding)
    requires WellFormed(ps) && ')' !in b.name
    ensures ReplaceAll(Render(ps), Pattern(b.name), b.value) == Render(Simultaneous(ps, [b]))
  {
    if ps != [] {
      var rest := Render(ps[1..]);
      PassSubstitutes(ps[1..], b);
      assert Simultaneous(ps, [b])[1..] == Simultaneous(ps[1..], [b]);
      match ps[0] {
        case Literal(text) => CopiesText(text, rest, Pattern(b.name), b.value);
        case Variable(name) =>
          assert Lookup([b], name) == if name == b.name then Some(b.value) else None;
          PassesVariable(name, b, rest);
      }
    }
  }

  // ---------- All passes are one simultaneous substitution ----------

  lemma {:induction false} PassesSubstitute(ps: seq<Piece>, bs: seq<Binding>)
    requires WellFormed(ps) && Bindings(bs)
    ensures Passes(Render(ps), Replacements(bs)) == Render(Simultaneous(ps, bs))
    decreases |bs|
  {
    if bs == [] {
      assert Simultaneous(ps, bs) == ps;
    } else {
      var next := Simultaneous(ps, [bs[0]]);
      PassSubstitutes(ps, bs[0]);
      forall i | 0 <= i < |ps| && ps[i].Variable?
        ensures Lookup([bs[0]], ps[i].name) == if ps[i].name == bs[0].name then Some(bs[0].value) else None
      {
      }
      PassesSubstitute(next, bs[1..]);
      assert Replacements(bs)[1..] == Replacements(bs[1..]);
      assert Simultaneous(next, bs[1..]) == Simultaneous(ps, bs);
    }
  }

  predicate DistinctNames(bs: seq<Binding>) {
    forall i, j :: 0 <= i < j < |bs| ==> bs[i].name != bs[j].name
  }

  lemma {:induction false} LookupFindsTheBinding(bs: seq<Binding>, name: string, value: string)
    requires DistinctNames(bs)
    ensures Lookup(bs, name) == Some(value) <==> Binding(name, value) in bs
  {
    if bs != [] {
      LookupFindsTheBinding(bs[1..], name, value);
      assert bs == [bs[0]] + bs[1..];
      assert forall k :: 0 <= k < |bs[1..]| ==> bs[1..][k].name == bs[k + 1].name;
    }
  }

  /** The order of replacements with distinct patterns does not matter. */
  lemma OrderDoesNotMatter(ps: seq<Piece>, bs: seq<Binding>, cs: seq<Binding>)
    requires WellFormed(ps) && Bindings(bs) && Bindings(cs)
    requires DistinctNames(bs) && DistinctNames(cs) && multiset(bs) == multiset(cs)
    ensures Passes(Render(ps), Replacements(bs)) == Passes(Render(ps), Replacements(cs))
  {
    forall name ensures Lookup(bs, name) == Lookup(cs, name) {
      SameLookup(bs, cs, name);
    }
    PassesSubstitute(ps, bs);
    PassesSubstitute(ps, cs);
    assert Simultaneous(ps, bs) == Simultaneous(ps, cs);
  }

  lemma SameLookup(bs: seq<Binding>, cs: seq<Binding>, name: string)
    requires DistinctNames(bs) && DistinctNames(cs) && multiset(bs) == multiset(cs)
    ensures Lookup(bs, name) == Lookup(cs, name)
  {
    forall value ensures Lookup(bs, name) == Some(value) <==> Lookup(cs, name) == Some(value) {
      LookupFindsTheBinding(bs, name, value);
      LookupFindsTheBinding(cs, name, value);
      assert Binding(name, value) in multiset(bs) <==> Binding(name, value) in multiset(cs);
    }
    if Lookup(bs, name).Some? {
      assert Lookup(cs, name) == Some(Lookup(bs, name).value);
    }
  }

  lemma {:induction false} RenderedVariables(ps: seq<Piece>)
    requires WellFormed(ps)
    ensures '$' in Render(ps) <==> exists i :: 0 <= i < |ps| && ps[i].Variable?
  {
    if ps != [] {
      RenderedVariables(ps[1..]);
      assert ps == [ps[0]] + ps[1..];
      if ps[0].Variable? {
        assert Pattern(ps[0].name)[0] == '$';
      } else if i :| 0 <= i < |ps| && ps[i].Variable? {
        assert ps[1..][i - 1].Variable?;
      }
    }
  }

  /** The result is free of variables exactly when every variable of the template is bound. */
  lemma ResolvedWhenBound(ps: seq<Piece>, bs: seq<Binding>)
    requires WellFormed(ps) && Bindings(bs)
    ensures '$' !in Passes(Render(ps), Replacements(bs))
            <==> forall i :: 0 <= i < |ps| && ps[i].Variable? ==> Lookup(bs, ps[i].name).Some?
  {
    PassesSubstitute(ps, bs);
    var result := Simultaneous(ps, bs);
    forall i | 0 <= i < |ps| && ps[i].Variable? && Lookup(bs, ps[i].name).Some?
      ensures '$' !in Lookup(bs, ps[i].name).value
    {
      LookupIsAValue(bs, ps[i].name);
    }
    RenderedVariables(result);
    if '$' !in Render(result) {
      forall i | 0 <= i < |ps| && ps[i].Variable? ensures Lookup(bs, ps[i].name).Some? {
        assert !result[i].Variable?;
      }
    }
  }

  lemma {:induction false} LookupIsAValue(bs: seq<Binding>, name: string)
    requires Bindings(bs) && Lookup(bs, name).Some?
    ensures '$' !in Lookup(bs, name).value
  {
    if bs[0].name != name {
      LookupIsAValue(bs[1..], name);
    }
  }

  lemma PassOverOne(name: string, b: Binding)
    requires VariableName(name) && ')' !in b.name
    ensures ReplaceAll(Pattern(name), Pattern(b.name), b.value)
            == if name == b.name then b.value else Pattern(name)
  {
    PassesVariable(name, b, "");
    assert Pattern(name) + "" == Pattern(name);
    assert b.value + "" == b.value;
  }

  lemma TwoPasses(text: string, r: Replacement, q: Replacement)
    requires r.pattern != "" && q.pattern != ""
    ensures Passes(text, [r, q]) == ReplaceAll(ReplaceAll(text, r.pattern, r.value), q.pattern, q.value)
  {
    assert [r, q][1..] == [q];
    assert [q][1..] == [];
    var once := ReplaceAll(text, r.pattern, r.value);
    assert Passes(once, [q]) == Passes(ReplaceAll(once, q.pattern, q.value), []);
  }

  /** A value that is itself a variable is replaced by later passes, so there the order matters. */
  lemma VariableValuesDependOnOrder(a: string, b: string, value: string)
    requires VariableName(a) && VariableName(b) && a != b
    ensures var toB, toValue := Replacement(Pattern(a), Pattern(b)), Replacement(Pattern(b), value);
            && Passes(Pattern(a), [toB, toValue]) == value
            && Passes(Pattern(a), [toValue, toB]) == Pattern(b)
  {
    var toB, toValue := Replacement(Pattern(a), Pattern(b)), Replacement(Pattern(b), value);
    TwoPasses(Pattern(a), toB, toValue);
    TwoPasses(Pattern(a), toValue, toB);
    PassOverOne(a, Binding(a, Pattern(b)));
    PassOverOne(b, Binding(b, value));
    PassOverOne(a, Binding(b, value));
  }
}
