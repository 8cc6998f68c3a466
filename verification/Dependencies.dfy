/**
 Dependency resolution as a fixpoint (the theory behind the two worklists of the CONNECT state,
 engine/src/simulation_state_connect.cpp).

 A configuration gives every name the list of names it is made from.  A name can be resolved
 once all of these are in the base or resolved already.
 */
module Dependencies {

  type Name = string
  type Config = map<Name, seq<Name>>

  function Elems<T>(s: seq<T>): set<T> {
    set x | x in s
  }

  predicate Distinct<T(==)>(s: seq<T>) {
    forall i, j :: 0 <= i < j < |s| ==> s[i] != s[j]
  }

  predicate Available(from: Config, base: set<Name>, done: set<Name>, n: Name)
    requires n in from
  {
    forall f | f in from[n] :: f in base || f in done
  }

  /** A derivation: distinct names, each available from the base and the names before it. */
  predicate Derivation(from: Config, base: set<Name>, d: seq<Name>)
    decreases |d|
  {
    d != [] ==>
      var front, n := d[..|d| - 1], d[|d| - 1];
      && Derivation(from, base, front)
      && n !in Elems(front) && n in from && Available(from, base, Elems(front), n)
  }

  ghost predicate Derivable(from: Config, base: set<Name>, n: Name) {
    exists d: seq<Name> :: Derivation(from, base, d) && n in d
  }

  predicate Closed(from: Config, base: set<Name>, done: set<Name>) {
    forall n | n in from && Available(from, base, done, n) :: n in done
  }

  lemma ElemsSnoc<T>(front: seq<T>, n: T)
    ensures Elems(front + [n]) == Elems(front) + {n}
  {
  }

  lemma DerivationExtends(from: Config, base: set<Name>, d: seq<Name>, n: Name)
    requires Derivation(from, base, d) && n in from && n !in Elems(d) && Available(from, base, Elems(d), n)
    ensures Derivation(from, base, d + [n]) && Elems(d + [n]) == Elems(d) + {n}
  {
    assert (d + [n])[..|d|] == d;
  }

  lemma DerivationSnoc(from: Config, base: set<Name>, front: seq<Name>, n: Name)
    requires Derivation(from, base, front + [n])
    ensures Derivation(from, base, front) && n in from && n !in Elems(front)
    ensures Elems(front + [n]) == Elems(front) + {n}
    ensures forall f | f in from[n] :: f in base || f in Elems(front)
  {
    assert (front + [n])[..|front|] == front;
  }

  /** Read by position. */
  lemma {:induction false} DerivationAt(from: Config, base: set<Name>, d: seq<Name>, i: nat)
    requires Derivation(from, base, d) && i < |d|
    ensures Derivation(from, base, d[..i]) && d[i] !in d[..i] && d[i] in from && Available(from, base, Elems(d[..i]), d[i])
    decreases |d|
  {
    var front := d[..|d| - 1];
    if i < |front| {
      DerivationAt(from, base, front, i);
      assert front[..i] == d[..i] && front[i] == d[i];
    }
  }

  /** All names of a derivation are configured, and what they are made from is there. */
  lemma {:induction false} DerivationIsGrounded(from: Config, base: set<Name>, d: seq<Name>)
    requires Derivation(from, base, d)
    ensures Elems(d) <= from.Keys && forall n | n in Elems(d) :: Available(from, base, Elems(d), n)
    decreases |d|
  {
    if d != [] {
      var front, n := d[..|d| - 1], d[|d| - 1];
      DerivationIsGrounded(from, base, front);
      assert d == front + [n];
      ElemsSnoc(front, n);
    }
  }

  lemma {:induction false} DerivationStaysInside(from: Config, base: set<Name>, d: seq<Name>, inside: set<Name>)
    requires Derivation(from, base, d) && Closed(from, base, inside)
    ensures Elems(d) <= inside
    decreases |d|
  {
    if d != [] {
      var front, n := d[..|d| - 1], d[|d| - 1];
      DerivationStaysInside(from, base, front, inside);
      assert d == front + [n];
      ElemsSnoc(front, n);
      assert Available(from, base, inside, n);
    }
  }

  /** A closed derivation is the least fixpoint: it holds exactly the derivable names. */
  lemma {:induction false} LeastFixpoint(from: Config, base: set<Name>, d: seq<Name>)
    requires Derivation(from, base, d) && Closed(from, base, Elems(d))
    ensures forall n :: n in d <==> Derivable(from, base, n)
  {
    forall n ensures n in d <==> Derivable(from, base, n) {
      assert n in d <==> n in Elems(d);
      if Derivable(from, base, n) {
        var e: seq<Name> :| Derivation(from, base, e) && n in e;
        DerivationStaysInside(from, base, e, Elems(d));
      }
    }
  }

  /** Whatever order two resolutions go in, they end with the same names. */
  lemma {:induction false} Confluence(from: Config, base: set<Name>, d: seq<Name>, e: seq<Name>)
    requires Derivation(from, base, d) && Closed(from, base, Elems(d))
    requires Derivation(from, base, e) && Closed(from, base, Elems(e))
    ensures Elems(d) == Elems(e)
  {
    DerivationStaysInside(from, base, d, Elems(e));
    DerivationStaysInside(from, base, e, Elems(d));
  }

  lemma {:induction false} Saturate(from: Config, base: set<Name>, d: seq<Name>) returns (e: seq<Name>)
    requires Derivation(from, base, d)
    ensures Derivation(from, base, e) && Closed(from, base, Elems(e)) && d <= e
    decreases from.Keys - Elems(d)
  {
    if Closed(from, base, Elems(d)) {
      e := d;
    } else {
      var n :| n in from && Available(from, base, Elems(d), n) && n !in Elems(d);
      DerivationExtends(from, base, d, n);
      e := Saturate(from, base, d + [n]);
    }
  }

  // ----- Why a resolution gets stuck -----

  /** A name of the configuration asks for a name that exists nowhere. */
  predicate Dangling(from: Config, base: set<Name>, n: Name, f: Name) {
    n in from && f in from[n] && f !in base && f !in from
  }

  predicate Asks(from: Config, n: Name, f: Name) {
    n in from && f in from[n]
  }

  /** Each name asks for the next one, the last for the first, and none is in the base. */
  predicate Cycle(from: Config, base: set<Name>, c: seq<Name>) {
    && |c| > 0
    && forall i | 0 <= i < |c| :: c[i] !in base && Asks(from, c[i], c[if i + 1 < |c| then i + 1 else 0])
  }

  lemma {:induction false} CycleNotInDerivation(from: Config, base: set<Name>, c: seq<Name>, d: seq<Name>, k: nat)
    requires Cycle(from, base, c) && Derivation(from, base, d) && k < |c|
    ensures c[k] !in Elems(d)
    decreases |d|
  {
    if d != [] {
      var front, n := d[..|d| - 1], d[|d| - 1];
      assert d == front + [n];
      ElemsSnoc(front, n);
      CycleNotInDerivation(from, base, c, front, k);
      var k' := if k + 1 < |c| then k + 1 else 0;
      CycleNotInDerivation(from, base, c, front, k');
      assert Asks(from, c[k], c[k']) && c[k'] !in base;
    }
  }

  lemma DanglingNotDerivable(from: Config, base: set<Name>, n: Name, f: Name)
    requires Dangling(from, base, n, f)
    ensures !Derivable(from, base, n)
  {
    if Derivable(from, base, n) {
      var d: seq<Name> :| Derivation(from, base, d) && n in d;
      assert n in Elems(d);
      DerivationIsGrounded(from, base, d);
    }
  }

  lemma {:induction false} SizeOfElems<T>(s: seq<T>)
    ensures |Elems(s)| <= |s|
    ensures Distinct(s) <==> |Elems(s)| == |s|
    decreases |s|
  {
    if |s| > 0 {
      var last := |s| - 1;
      var init := s[..last];
      SizeOfElems(init);
      assert s == init + [s[last]];
      assert Elems(s) == Elems(init) + {s[last]};
      if s[last] in init {
        var i :| 0 <= i < last && init[i] == s[last];
        assert s[i] == s[last];
        assert Elems(s) == Elems(init);
      } else {
        assert forall i, j :: 0 <= i < j < |init| ==> init[i] == s[i] && init[j] == s[j];
      }
    }
  }

  lemma SubsetSize<T>(a: set<T>, b: set<T>)
    requires a <= b
    ensures |a| <= |b|
    ensures |a| == |b| ==> a == b
  {
    assert b == a + (b - a);
    if |b - a| == 0 {
      assert b - a == {};
    }
  }

  /** Every name of `next` asks for the name it is mapped to, which is again one of them. */
  predicate Insatiable(from: Config, next: map<Name, Name>) {
    forall n {:trigger next[n]} | n in next :: next[n] in next && Asks(from, n, next[n])
  }

  /** Following `next` from `n`. */
  function Walk(from: Config, next: map<Name, Name>, n: Name, length: nat): (w: seq<Name>)
    requires Insatiable(from, next) && n in next
    ensures |w| == length + 1 && forall i | 0 <= i <= length :: w[i] in next.Keys
    ensures forall i | 0 <= i < length :: Asks(from, w[i], w[i + 1])
  {
    if length == 0 then [n]
    else
      var v := Walk(from, next, n, length - 1);
      v + [next[v[length - 1]]]
  }

  lemma {:induction false} RepeatIn(w: seq<Name>, names: set<Name>) returns (i: nat, j: nat)
    requires (forall k | 0 <= k < |w| :: w[k] in names) && |w| > |names|
    ensures i < j < |w| && w[i] == w[j]
  {
    SizeOfElems(w);
    SubsetSize(Elems(w), names);
    i, j :| 0 <= i < j < |w| && w[i] == w[j];
  }

  lemma {:induction false} StuckHasCycle(from: Config, base: set<Name>, next: map<Name, Name>, n: Name) returns (c: seq<Name>)
    requires Insatiable(from, next) && next.Keys !! base && n in next
    ensures Cycle(from, base, c)
  {
    var w := Walk(from, next, n, |next.Keys|);
    var i, j := RepeatIn(w, next.Keys);
    c := w[i..j];
    forall k | 0 <= k < |c| ensures c[k] !in base && Asks(from, c[k], c[if k + 1 < |c| then k + 1 else 0]) {
      assert c[k] == w[i + k] && w[i + k] in next.Keys;
      assert Asks(from, w[i + k], w[i + k + 1]);
      assert k + 1 < |c| ==> c[k + 1] == w[i + k + 1];
    }
  }

  /** Some name cannot be resolved exactly when a name exists nowhere or names ask for each
      other in a cycle. */
  lemma {:induction false} StuckIff(from: Config, base: set<Name>)
    ensures (exists n :: n in from && !Derivable(from, base, n))
       <==> ((exists n, f :: Dangling(from, base, n, f)) || (exists c: seq<Name> :: Cycle(from, base, c)))
  {
    if exists n, f :: Dangling(from, base, n, f) {
      var n, f :| Dangling(from, base, n, f);
      DanglingNotDerivable(from, base, n, f);
    } else if exists c: seq<Name> :: Cycle(from, base, c) {
      var c: seq<Name> :| Cycle(from, base, c);
      if Derivable(from, base, c[0]) {
        var d: seq<Name> :| Derivation(from, base, d) && c[0] in d;
        CycleNotInDerivation(from, base, c, d, 0);
      }
      assert Asks(from, c[0], c[if 0 + 1 < |c| then 0 + 1 else 0]);
    } else if exists n :: n in from && !Derivable(from, base, n) {
      var n :| n in from && !Derivable(from, base, n);
      var _ := CycleOfStuck(from, base, n);
    }
  }

  lemma {:induction false} CycleOfStuck(from: Config, base: set<Name>, n: Name) returns (c: seq<Name>)
    requires forall m, f :: !Dangling(from, base, m, f)
    requires n in from && !Derivable(from, base, n)
    ensures Cycle(from, base, c)
  {
    var d := Saturate(from, base, []);
    LeastFixpoint(from, base, d);
    var done := Elems(d);
    var next := map m | m in from.Keys - done - base :: Missing(from, base, done, m);
    forall m | m in from && m !in done
      ensures Missing(from, base, done, m) in next && Asks(from, m, Missing(from, base, done, m))
    {
      assert !Dangling(from, base, m, Missing(from, base, done, m));
    }
    c := StuckHasCycle(from, base, next, Missing(from, base, done, n));
  }

  /** The first name that keeps `n` from being resolved; `n` itself if nothing does. */
  function Missing(from: Config, base: set<Name>, done: set<Name>, n: Name): (f: Name)
    requires n in from
    ensures !Available(from, base, done, n) ==> f in from[n] && f !in base && f !in done
  {
    FirstMissing(from[n], base + done, n)
  }

  function FirstMissing(names: seq<Name>, known: set<Name>, default: Name): (f: Name)
    ensures (exists g :: g in names && g !in known) ==> f in names && f !in known
  {
    if names == [] then default
    else if names[0] !in known then names[0]
    else FirstMissing(names[1..], known, default)
  }
}
