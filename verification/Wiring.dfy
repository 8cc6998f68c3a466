/**
 Which component feeds which (engine/src/simulation_state_connect.cpp:266-275, 337-348).

 A configured name may hide a component that the prototype brought under the same name.  Then
 an input under this name is the prototype's component or the configured one, depending on
 which of the two was there when the input was fetched.
 */
module Wiring {
  import opened Dependencies
  import opened Connect

  /** The inputs of a component that is made when the names in `before` have been configured:
      the final component for these, the prototype's for the others. */
  function Feeds(base: Parts, final: Parts, before: set<Name>, from: seq<Name>): (inputs: seq<Component>)
    requires forall f | f in from :: if f in before then f in final else f in base
    ensures |inputs| == |from|
    ensures forall i | 0 <= i < |from| :: inputs[i] == if from[i] in before then final[from[i]] else base[from[i]]
  {
    if from == [] then []
    else [if from[0] in before then final[from[0]] else base[from[0]]] + Feeds(base, final, before, from[1..])
  }

  /** The last step of configuring the names `front` and then `n`. */
  lemma BuildStep(owner: Name, from: Config, base: Parts, front: seq<Name>, n: Name)
    requires Derivation(from, base.Keys, front + [n])
    ensures Derivation(from, base.Keys, front) && n in from && n !in Elems(front)
    ensures Elems(front + [n]) == Elems(front) + {n}
    ensures forall f | f in from[n] :: f in base || f in Elems(front)
    ensures var m := Build(owner, from, base, front);
      Build(owner, from, base, front + [n]) == m[n := Made(owner, n, Inputs(m, from[n]))]
  {
    DerivationSnoc(from, base.Keys, front, n);
    assert (front + [n])[..|front|] == front;
  }

  lemma {:induction false} BuildKeeps(owner: Name, from: Config, base: Parts, d: seq<Name>, n: Name)
    requires Derivation(from, base.Keys, d) && n in base && n !in Elems(d)
    ensures Build(owner, from, base, d)[n] == base[n]
    decreases |d|
  {
    if d != [] {
      var front, last := d[..|d| - 1], d[|d| - 1];
      assert d == front + [last];
      BuildStep(owner, from, base, front, last);
      BuildKeeps(owner, from, base, front, n);
    }
  }

  lemma {:induction false} InputsAreFeeds(have: Parts, base: Parts, final: Parts, before: set<Name>, from: seq<Name>)
    requires forall f | f in from :: if f in before then f in final else f in base
    requires forall f | f in from :: f in have && have[f] == if f in before then final[f] else base[f]
    ensures Inputs(have, from) == Feeds(base, final, before, from)
  {
    if from != [] {
      InputsAreFeeds(have, base, final, before, from[1..]);
    }
  }

  /** Every configured component is fed by the final component under an input's name if that name
      was configured before, and otherwise by the prototype's. */
  lemma {:induction false} BuildIsConsistent(owner: Name, from: Config, base: Parts, before: seq<Name>, n: Name, after: seq<Name>)
    requires Derivation(from, base.Keys, before + [n] + after)
    ensures n in from && n !in Elems(before) && forall f | f in from[n] :: f in base || f in Elems(before)
    ensures var m := Build(owner, from, base, before + [n] + after);
      && Elems(before) <= m.Keys && n in m
      && m[n] == Made(owner, n, Feeds(base, m, Elems(before), from[n]))
    decreases |after|
  {
    var d := before + [n] + after;
    if after == [] {
      assert d == before + [n];
      BuildStep(owner, from, base, before, n);
      var have, m := Build(owner, from, base, before), Build(owner, from, base, d);
      forall f | f in from[n] ensures have[f] == if f in Elems(before) then m[f] else base[f] {
        if f !in Elems(before) {
          BuildKeeps(owner, from, base, before, f);
        }
      }
      InputsAreFeeds(have, base, m, Elems(before), from[n]);
    } else {
      var rest, last := after[..|after| - 1], after[|after| - 1];
      var front := before + [n] + rest;
      assert d == front + [last];
      BuildStep(owner, from, base, front, last);
      BuildIsConsistent(owner, from, base, before, n, rest);
      ElemsOfParts(before, n, rest);
      FeedsAgree(base, Build(owner, from, base, front), Build(owner, from, base, d), Elems(before), from[n]);
    }
  }

  lemma ElemsOfParts(before: seq<Name>, n: Name, after: seq<Name>)
    ensures Elems(before + [n] + after) == Elems(before) + {n} + Elems(after)
  {
  }

  lemma {:induction false} FeedsAgree(base: Parts, a: Parts, b: Parts, before: set<Name>, from: seq<Name>)
    requires forall f | f in from :: if f in before then f in a && f in b && a[f] == b[f] else f in base
    ensures Feeds(base, a, before, from) == Feeds(base, b, before, from)
  {
    if from != [] {
      FeedsAgree(base, a, b, before, from[1..]);
    }
  }

  // ----- What must be there before a name -----

  /** The configured names that names in `s` wait for: what the prototype has is not waited for. */
  function WaitedFor(from: Config, base: set<Name>, s: set<Name>): set<Name> {
    set m, f | m in s && m in from && f in from[m] && f in from && f !in base :: f
  }

  lemma IsWaitedFor(from: Config, base: set<Name>, s: set<Name>, n: Name, f: Name)
    requires n in s && n in from && f in from[n] && f in from && f !in base
    ensures f in WaitedFor(from, base, s)
  {
  }

  function NeededFrom(from: Config, base: set<Name>, seen: set<Name>): (needed: set<Name>)
    requires seen <= from.Keys && seen !! base
    ensures seen <= needed <= from.Keys && needed !! base
    ensures WaitedFor(from, base, needed) <= needed
    decreases from.Keys - seen
  {
    var more := seen + WaitedFor(from, base, seen);
    if more == seen then seen else NeededFrom(from, base, more)
  }

  /** All names that have to be configured before `h`. */
  function NeededBy(from: Config, base: set<Name>, h: Name): (needed: set<Name>)
    requires h in from
    ensures needed <= from.Keys && needed !! base
    ensures WaitedFor(from, base, needed) <= needed && WaitedFor(from, base, {h}) <= needed
  {
    NeededFrom(from, base, WaitedFor(from, base, {h}))
  }

  lemma {:induction false} NeededIsLeast(from: Config, base: set<Name>, seen: set<Name>, s: set<Name>)
    requires seen <= from.Keys && seen !! base && seen <= s && WaitedFor(from, base, s) <= s
    ensures NeededFrom(from, base, seen) <= s
    decreases from.Keys - seen
  {
    var more := seen + WaitedFor(from, base, seen);
    assert WaitedFor(from, base, seen) <= WaitedFor(from, base, s);
    if more != seen {
      NeededIsLeast(from, base, more, s);
    }
  }

  lemma DerivationWaits(from: Config, base: set<Name>, d: seq<Name>)
    requires Derivation(from, base, d)
    ensures Elems(d) <= from.Keys && WaitedFor(from, base, Elems(d)) <= Elems(d)
  {
    DerivationIsGrounded(from, base, d);
    assert forall m | m in Elems(d) :: Available(from, base, Elems(d), m);
  }

  /** In every resolution, what a name needs comes before it. */
  lemma NeededComesBefore(owner: Name, from: Config, base: Parts, before: seq<Name>, h: Name, after: seq<Name>)
    requires Derivation(from, base.Keys, before + [h] + after)
    ensures h in from && NeededBy(from, base.Keys, h) <= Elems(before)
  {
    BuildIsConsistent(owner, from, base, before, h, after);
    DerivationAt(from, base.Keys, before + [h] + after, |before|);
    assert (before + [h] + after)[..|before|] == before;
    DerivationWaits(from, base.Keys, before);
    NeededIsLeast(from, base.Keys, WaitedFor(from, base.Keys, {h}), Elems(before));
  }

  // ----- When the order does not show -----

  /** Whoever asks for a hidden name, other than the hiding component itself, has to be there
      before it anyway. */
  predicate Settled(from: Config, base: set<Name>) {
    forall n, h | n in from && h in from[n] && h in from && h in base && n != h :: n in NeededBy(from, base, h)
  }

  predicate Complete(from: Config, base: set<Name>, d: seq<Name>) {
    Derivation(from, base, d) && Elems(d) == from.Keys
  }

  /** All complete resolutions build the same vehicle, down to which component feeds which. */
  ghost predicate OrderDoesNotShow(owner: Name, from: Config, base: Parts) {
    forall d, e | Complete(from, base.Keys, d) && Complete(from, base.Keys, e) ::
      Build(owner, from, base, d) == Build(owner, from, base, e)
  }

  lemma SplitAt(d: seq<Name>, n: Name) returns (before: seq<Name>, after: seq<Name>)
    requires n in Elems(d)
    ensures d == before + [n] + after
  {
    var i :| 0 <= i < |d| && d[i] == n;
    before, after := d[..i], d[i + 1..];
  }

  /** The names of a resolution are distinct. */
  lemma {:induction false} Apart(from: Config, base: set<Name>, before: seq<Name>, n: Name, after: seq<Name>)
    requires Derivation(from, base, before + [n] + after)
    ensures n !in Elems(before) && n !in Elems(after) && Elems(before) !! Elems(after)
    decreases |after|
  {
    if after == [] {
      assert before + [n] + [] == before + [n];
      DerivationSnoc(from, base, before, n);
    } else {
      var rest, last := after[..|after| - 1], after[|after| - 1];
      assert before + [n] + after == before + [n] + rest + [last];
      assert after == rest + [last];
      DerivationSnoc(from, base, before + [n] + rest, last);
      Apart(from, base, before, n, rest);
      ElemsOfParts(before, n, rest);
      ElemsSnoc(rest, last);
    }
  }

  /** A hidden name comes after those that ask for it. */
  lemma HiddenComesLater(owner: Name, from: Config, base: Parts, before: seq<Name>, h: Name, after: seq<Name>, n: Name)
    requires Derivation(from, base.Keys, before + [h] + after) && Settled(from, base.Keys)
    requires n in Elems(after) && n in from && h in from[n]
    ensures h !in base
  {
    NeededComesBefore(owner, from, base, before, h, after);
    Apart(from, base.Keys, before, h, after);
  }

  lemma Resplit(before: seq<Name>, n: Name, after: seq<Name>, f: Name) returns (b: seq<Name>, c: seq<Name>)
    requires f in Elems(before)
    ensures before + [n] + after == b + [f] + (c + [n] + after) && |b| < |before| && n in Elems(c + [n] + after)
  {
    b, c := SplitAt(before, f);
    ElemsOfParts(c, n, after);
  }

  lemma NamesAreConfigured(from: Config, base: set<Name>, d: seq<Name>)
    requires Derivation(from, base, d)
    ensures Elems(d) <= from.Keys
  {
    DerivationIsGrounded(from, base, d);
  }

  /** Then an input is the configured component exactly if the prototype has none of this name. */
  lemma SettledInput(owner: Name, from: Config, base: Parts, before: seq<Name>, n: Name, after: seq<Name>, f: Name)
    requires Derivation(from, base.Keys, before + [n] + after) && Settled(from, base.Keys)
    requires n in from && f in from[n]
    ensures f in Elems(before) <==> f in from && f !in base
  {
    BuildIsConsistent(owner, from, base, before, n, after);
    if f in Elems(before) {
      NamesAreConfigured(from, base.Keys, before + [n] + after);
      ElemsOfParts(before, n, after);
      var b, c := Resplit(before, n, after, f);
      HiddenComesLater(owner, from, base, b, f, c + [n] + after, n);
    }
  }

  lemma {:induction false} SamePiece(owner: Name, from: Config, base: Parts, d: seq<Name>, e: seq<Name>,
                                     before: seq<Name>, n: Name, after: seq<Name>)
    requires Complete(from, base.Keys, d) && Complete(from, base.Keys, e) && Settled(from, base.Keys)
    requires d == before + [n] + after
    ensures n in Elems(d) && Build(owner, from, base, d)[n] == Build(owner, from, base, e)[n]
    decreases |before|, 1
  {
    ElemsOfParts(before, n, after);
    var m, k := Build(owner, from, base, d), Build(owner, from, base, e);
    var before', after' := SplitAt(e, n);
    BuildIsConsistent(owner, from, base, before, n, after);
    BuildIsConsistent(owner, from, base, before', n, after');
    forall f | f in from[n]
      ensures (f in Elems(before) <==> f in Elems(before')) && (f in Elems(before) ==> m[f] == k[f])
    {
      SettledInput(owner, from, base, before', n, after', f);
      SameInput(owner, from, base, d, e, before, n, after, f);
    }
    SameFeeds(base, m, k, Elems(before), Elems(before'), from[n]);
  }

  lemma {:induction false} SameInput(owner: Name, from: Config, base: Parts, d: seq<Name>, e: seq<Name>,
                                     before: seq<Name>, n: Name, after: seq<Name>, f: Name)
    requires Complete(from, base.Keys, d) && Complete(from, base.Keys, e) && Settled(from, base.Keys)
    requires d == before + [n] + after && n in from && f in from[n]
    ensures f in Elems(before) <==> f in from && f !in base
    ensures f in Elems(before) ==> f in Elems(d) && Build(owner, from, base, d)[f] == Build(owner, from, base, e)[f]
    decreases |before|, 0
  {
    SettledInput(owner, from, base, before, n, after, f);
    if f in Elems(before) {
      var b, c := Resplit(before, n, after, f);
      SamePiece(owner, from, base, d, e, b, f, c + [n] + after);
    }
  }

  lemma {:induction false} SameFeeds(base: Parts, a: Parts, b: Parts, p: set<Name>, q: set<Name>, from: seq<Name>)
    requires forall f | f in from :: (f in p <==> f in q) && if f in p then f in a && f in b && a[f] == b[f] else f in base
    ensures Feeds(base, a, p, from) == Feeds(base, b, q, from)
  {
    if from != [] {
      SameFeeds(base, a, b, p, q, from[1..]);
    }
  }

  lemma SettledIsUnique(owner: Name, from: Config, base: Parts, d: seq<Name>, e: seq<Name>)
    requires Complete(from, base.Keys, d) && Complete(from, base.Keys, e) && Settled(from, base.Keys)
    ensures Build(owner, from, base, d) == Build(owner, from, base, e)
  {
    var m, k := Build(owner, from, base, d), Build(owner, from, base, e);
    forall n | n in m ensures n in k && m[n] == k[n] {
      if n in Elems(d) {
        var before, after := SplitAt(d, n);
        SamePiece(owner, from, base, d, e, before, n, after);
      } else {
        BuildKeeps(owner, from, base, d, n);
        BuildKeeps(owner, from, base, e, n);
      }
    }
    assert m.Keys == k.Keys;
  }

  // ----- When it does -----

  function Restrict(d: seq<Name>, s: set<Name>): seq<Name> {
    if d == [] then []
    else Restrict(d[..|d| - 1], s) + if d[|d| - 1] in s then [d[|d| - 1]] else []
  }

  /** The part of a resolution that a closed set of names makes up is a resolution. */
  lemma {:induction false} RestrictIsDerivation(from: Config, base: set<Name>, d: seq<Name>, s: set<Name>)
    requires Derivation(from, base, d) && WaitedFor(from, base, s) <= s
    ensures Derivation(from, base, Restrict(d, s)) && Elems(Restrict(d, s)) == Elems(d) * s
    decreases |d|
  {
    if d != [] {
      var front, n := d[..|d| - 1], d[|d| - 1];
      assert d == front + [n];
      DerivationSnoc(from, base, front, n);
      RestrictIsDerivation(from, base, front, s);
      if n in s {
        RestrictStep(from, base, front, n, s);
      } else {
        assert Restrict(d, s) == Restrict(front, s);
      }
    }
  }

  lemma RestrictStep(from: Config, base: set<Name>, front: seq<Name>, n: Name, s: set<Name>)
    requires Derivation(from, base, front) && Derivation(from, base, Restrict(front, s))
    requires Elems(Restrict(front, s)) == Elems(front) * s && WaitedFor(from, base, s) <= s
    requires n in s && n in from && n !in Elems(front) && forall f | f in from[n] :: f in base || f in Elems(front)
    ensures Derivation(from, base, Restrict(front, s) + [n])
    ensures Elems(Restrict(front, s) + [n]) == (Elems(front) + {n}) * s
  {
    NamesAreConfigured(from, base, front);
    forall f | f in from[n] ensures f in base || f in Elems(Restrict(front, s)) {
      if f !in base {
        IsWaitedFor(from, base, s, n, f);
      }
    }
    DerivationExtends(from, base, Restrict(front, s), n);
  }

  /** Once all that `n` needs is there, `n` may come before everything else. */
  lemma ComesEarly(from: Config, base: set<Name>, d: seq<Name>, n: Name) returns (before: seq<Name>, after: seq<Name>)
    requires Complete(from, base, d) && n in from && n !in NeededBy(from, base, n)
    ensures Elems(before) == NeededBy(from, base, n) && Complete(from, base, before + [n] + after)
  {
    var s := NeededBy(from, base, n);
    RestrictIsDerivation(from, base, d, s);
    before := Restrict(d, s);
    NeededIsEnough(from, base, d, n);
    DerivationExtends(from, base, before, n);
    after := Completion(from, base, d, before + [n]);
  }

  lemma NeededIsEnough(from: Config, base: set<Name>, d: seq<Name>, n: Name)
    requires Complete(from, base, d) && n in from
    ensures Available(from, base, NeededBy(from, base, n), n)
  {
    DerivationIsGrounded(from, base, d);
    assert Available(from, base, Elems(d), n);
    forall f | f in from[n] && f !in base ensures f in NeededBy(from, base, n) {
      IsWaitedFor(from, base, {n}, n, f);
    }
  }

  /** Every resolution can be completed. */
  lemma Completion(from: Config, base: set<Name>, d: seq<Name>, begun: seq<Name>) returns (after: seq<Name>)
    requires Complete(from, base, d) && Derivation(from, base, begun)
    ensures Complete(from, base, begun + after)
  {
    var e := Saturate(from, base, begun);
    after := e[|begun|..];
    assert e == begun + after;
    Confluence(from, base, d, e);
  }

  lemma NeverNeedsItself(owner: Name, from: Config, base: Parts, d: seq<Name>, n: Name)
    requires Complete(from, base.Keys, d) && n in from
    ensures n !in NeededBy(from, base.Keys, n)
  {
    var before, after := SplitAt(d, n);
    NeededComesBefore(owner, from, base, before, n, after);
    BuildIsConsistent(owner, from, base, before, n, after);
  }

  /** The prototype's components were made for other vehicles, or by the simulator. */
  predicate NotMadeFor(owner: Name, base: Parts) {
    forall n | n in base :: base[n].Made? ==> base[n].vehicle != owner
  }

  /** Some resolution feeds `n` with the prototype's component of a hidden name ... */
  lemma FedEarly(owner: Name, from: Config, base: Parts, d: seq<Name>, n: Name, i: nat) returns (early: seq<Name>)
    requires Complete(from, base.Keys, d) && n in from && i < |from[n]| && from[n][i] in base && from[n][i] != n
    ensures Complete(from, base.Keys, early)
    ensures var m := Build(owner, from, base, early)[n]; m.Made? && i < |m.inputs| && m.inputs[i] == base[from[n][i]]
  {
    NeverNeedsItself(owner, from, base, d, n);
    var b, a := ComesEarly(from, base.Keys, d, n);
    early := b + [n] + a;
    BuildIsConsistent(owner, from, base, b, n, a);
  }

  /** ... and if `n` need not be there before that name, some other one with the configured one. */
  lemma FedLate(owner: Name, from: Config, base: Parts, d: seq<Name>, n: Name, i: nat) returns (late: seq<Name>)
    requires Complete(from, base.Keys, d) && n in from && i < |from[n]|
    requires from[n][i] in from && from[n][i] != n && n !in NeededBy(from, base.Keys, from[n][i])
    ensures Complete(from, base.Keys, late)
    ensures var m := Build(owner, from, base, late)[n];
      m.Made? && i < |m.inputs| && m.inputs[i].Made? && m.inputs[i].vehicle == owner
  {
    var h := from[n][i];
    NeverNeedsItself(owner, from, base, d, h);
    var b, a := ComesEarly(from, base.Keys, d, h);
    late := b + [h] + a;
    BuildIsConsistent(owner, from, base, b, h, a);
    ElemsOfParts(b, h, a);
    var p, r := SplitBehind(b, h, a, n);
    BuildIsConsistent(owner, from, base, p, n, r);
  }

  lemma SplitBehind(before: seq<Name>, h: Name, after: seq<Name>, n: Name) returns (p: seq<Name>, r: seq<Name>)
    requires n in Elems(after)
    ensures before + [h] + after == p + [n] + r && h in Elems(p)
  {
    var c;
    c, r := SplitAt(after, n);
    p := before + [h] + c;
    ElemsOfParts(before, h, c);
  }

  /** If `n` asks for the hidden name `h` and need not be there before it, the order shows. */
  lemma OrderShows(owner: Name, from: Config, base: Parts, d: seq<Name>, n: Name, h: Name)
    requires Complete(from, base.Keys, d) && NotMadeFor(owner, base)
    requires n in from && h in from[n] && h in from && h in base && n != h && n !in NeededBy(from, base.Keys, h)
    ensures !OrderDoesNotShow(owner, from, base)
  {
    var i :| 0 <= i < |from[n]| && from[n][i] == h;
    var early := FedEarly(owner, from, base, d, n, i);
    var late := FedLate(owner, from, base, d, n, i);
    assert Build(owner, from, base, early)[n] != Build(owner, from, base, late)[n];
  }

  /** Main result: if the components can be configured at all, the order does not show exactly if
      the configuration is settled. */
  lemma WiringIsUniqueIff(owner: Name, from: Config, base: Parts, d: seq<Name>)
    requires Complete(from, base.Keys, d) && NotMadeFor(owner, base)
    ensures OrderDoesNotShow(owner, from, base) <==> Settled(from, base.Keys)
  {
    if Settled(from, base.Keys) {
      forall d, e | Complete(from, base.Keys, d) && Complete(from, base.Keys, e)
        ensures Build(owner, from, base, d) == Build(owner, from, base, e)
      {
        SettledIsUnique(owner, from, base, d, e);
      }
    } else {
      var n, h :| n in from && h in from[n] && h in from && h in base && n != h && n !in NeededBy(from, base.Keys, h);
      OrderShows(owner, from, base, d, n, h);
    }
  }

  /** In particular it does not show if only the hiding components themselves ask for what they
      hide. */
  lemma SelfHidingIsSettled(from: Config, base: set<Name>)
    requires forall n, h | n in from && h in from[n] && h in from && h in base :: n == h
    ensures Settled(from, base)
  {
  }

  /** A configured name that hides a prototype's component makes the order show: "b" is fed by
      whichever "a" is there when its turn comes. */
  lemma HidingShowsTheOrder()
    ensures var from: Config := map["a" := [], "b" := ["a"]];
            var base: Parts := map["a" := Foreign(0)];
            && Derivation(from, base.Keys, ["a", "b"]) && Derivation(from, base.Keys, ["b", "a"])
            && Build("v", from, base, ["a", "b"])["b"] != Build("v", from, base, ["b", "a"])["b"]
  {
    var from: Config := map["a" := [], "b" := ["a"]];
    var base: Parts := map["a" := Foreign(0)];
    var ab: seq<Name>, ba: seq<Name> := ["a", "b"], ["b", "a"];
    assert ab[..0] == [] && ab[..1] == ["a"] && ba[..0] == [] && ba[..1] == ["b"];
    assert Derivation(from, base.Keys, ["a"]) && Derivation(from, base.Keys, ["b"]);
    assert ["a"][..0] == [] && ["b"][..0] == [];
    var a := Build("v", from, base, ["a"]);
    assert a["a"] == Made("v", "a", []);
    assert Build("v", from, base, ab)["b"] == Made("v", "b", Inputs(a, ["a"]));
    assert Build("v", from, base, ["b"])["b"] == Made("v", "b", Inputs(base, ["a"]));
    assert Inputs(a, ["a"])[0] == a["a"] && Inputs(base, ["a"])[0] == base["a"];
  }
}
