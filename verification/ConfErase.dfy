/**
 Erasing along a JSON pointer (fable/src/fable/conf.cpp).  Pointers are evaluated as in section 4
 of RFC 6901; a pointer is the sequence of its reference tokens.
 */
module ConfErase {
  import opened Prelude

  datatype Json =
    | Null | Bool(b: bool) | Number(n: int) | Text(s: string)
    | Array(items: seq<Json>)
    | Object(members: map<string, Json>)

  type Pointer = seq<string>

  // ----- Array indices -----

  predicate IsDigit(c: char) { '0' <= c <= '9' }

  function Digit(c: char): nat
    requires IsDigit(c)
  {
    c as int - '0' as int
  }

  /** Digits without a leading zero. */
  predicate IsIndex(token: string) {
    && token != []
    && (token[0] == '0' ==> |token| == 1)
    && forall i | 0 <= i < |token| :: IsDigit(token[i])
  }

  function Value(token: string): nat
    requires forall i | 0 <= i < |token| :: IsDigit(token[i])
  {
    if token == [] then 0
    else 10 * Value(token[..|token| - 1]) + Digit(token[|token| - 1])
  }

  lemma {:induction false} ValueIsPositive(token: string)
    requires IsIndex(token) && token[0] != '0'
    ensures Value(token) > 0
  {
    if |token| > 1 {
      ValueIsPositive(token[..|token| - 1]);
    } else {
      assert Value([]) == 0;
    }
  }

  /** Different tokens never name the same element. */
  lemma {:induction false} IndexIsUnique(a: string, b: string)
    requires IsIndex(a) && IsIndex(b) && Value(a) == Value(b)
    ensures a == b
    decreases |a|
  {
    var a', b' := a[..|a| - 1], b[..|b| - 1];
    assert a == a' + [a[|a| - 1]] && b == b' + [b[|b| - 1]];
    if |a| > 1 {
      ValueIsPositive(a');
    }
    if |b| > 1 {
      ValueIsPositive(b');
    }
    assert Value(a') == Value(b') && a[|a| - 1] == b[|b| - 1];
    if |a| > 1 && |b| > 1 {
      IndexIsUnique(a', b');
    }
  }

  /** A number as it is written: "0", "1", ..., "9", "10", ... */
  function Decimal(n: nat): string {
    if n < 10 then [['0', '1', '2', '3', '4', '5', '6', '7', '8', '9'][n]] else Decimal(n / 10) + Decimal(n % 10)
  }

  lemma {:induction false} DecimalIsIndex(n: nat)
    ensures IsIndex(Decimal(n)) && Value(Decimal(n)) == n && (n > 0 ==> Decimal(n)[0] != '0')
  {
    var d := Decimal(n);
    if n < 10 {
      assert d[..0] == [] && Value([]) == 0;
    } else {
      DecimalIsIndex(n / 10);
      DecimalIsIndex(n % 10);
      assert d[..|d| - 1] == Decimal(n / 10) && d[|d| - 1] == Decimal(n % 10)[0];
      assert Value(Decimal(n % 10)) == Digit(d[|d| - 1]) by {
        assert Decimal(n % 10)[..0] == [] && Value([]) == 0;
      }
    }
  }

  // ----- Pointers -----

  function Child(j: Json, token: string): Option<Json> {
    match j
    case Object(members) => if token in members then Some(members[token]) else None
    case Array(items) =>
      if IsIndex(token) && Value(token) < |items| then Some(items[Value(token)]) else None
    case _ => None
  }

  function At(j: Json, ptr: Pointer): Option<Json>
    decreases |ptr|
  {
    if ptr == [] then Some(j)
    else
      match Child(j, ptr[0])
      case None => None
      case Some(c) => At(c, ptr[1..])
  }

  /** What a pointer names: the whole document, ... */
  lemma PointerNamesRoot(j: Json)
    ensures At(j, []) == Some(j)
  {
  }

  /** ... what is found under its first token as a key of an object, ... */
  lemma PointerNamesMember(members: map<string, Json>, token: string, rest: Pointer)
    ensures At(Object(members), [token] + rest) == if token in members then At(members[token], rest) else None
  {
    assert ([token] + rest)[1..] == rest;
  }

  /** ... in an array, where "0" is the first item, "1" the second, and so on, ... */
  lemma PointerNamesItem(items: seq<Json>, i: nat, rest: Pointer)
    ensures At(Array(items), [Decimal(i)] + rest) == if i < |items| then At(items[i], rest) else None
  {
    DecimalIsIndex(i);
    assert ([Decimal(i)] + rest)[1..] == rest;
  }

  /** ... and nothing else: no other token names an item, and there is nothing below any other value. */
  lemma PointerNamesNothing(j: Json, token: string, rest: Pointer)
    requires !j.Object? && (j.Array? ==> forall i | 0 <= i < |j.items| :: token != Decimal(i))
    ensures At(j, [token] + rest) == None
  {
    if j.Array? && IsIndex(token) {
      DecimalIsIndex(Value(token));
      IndexIsUnique(token, Decimal(Value(token)));
    }
  }

  predicate Has(j: Json, ptr: Pointer) { At(j, ptr).Some? }

  function SetChild(j: Json, token: string, v: Json): Json
    requires Child(j, token).Some?
  {
    match j
    case Object(members) => Object(members[token := v])
    case Array(items) => Array(items[Value(token) := v])
  }

  /** The document with another value in the place that `ptr` names. */
  function Replace(j: Json, ptr: Pointer, v: Json): Json
    requires Has(j, ptr)
    decreases |ptr|
  {
    if ptr == [] then v else SetChild(j, ptr[0], Replace(Child(j, ptr[0]).value, ptr[1..], v))
  }

  function Parent(ptr: Pointer): Pointer { if ptr == [] then [] else ptr[..|ptr| - 1] }

  function Back(ptr: Pointer): string
    requires ptr != []
  {
    ptr[|ptr| - 1]
  }

  lemma ChildOfSetChild(j: Json, token: string, v: Json, other: string)
    requires Child(j, token).Some?
    ensures Child(SetChild(j, token, v), other) == if other == token then Some(v) else Child(j, other)
  {
    if j.Array? && IsIndex(other) && Value(other) == Value(token) {
      IndexIsUnique(other, token);
    }
  }

  lemma {:induction false} AtConcat(j: Json, p: Pointer, r: Pointer)
    ensures At(j, p + r) == match At(j, p) case None => None case Some(c) => At(c, r)
    decreases |p|
  {
    if p == [] {
      assert p + r == r;
    } else {
      assert (p + r)[1..] == p[1..] + r;
      if Child(j, p[0]).Some? {
        AtConcat(Child(j, p[0]).value, p[1..], r);
      }
    }
  }

  /** Below the place that is replaced the new value is found; elsewhere nothing changes. */
  lemma {:induction false} AtReplace(j: Json, p: Pointer, v: Json, r: Pointer)
    requires Has(j, p)
    ensures p <= r ==> At(Replace(j, p, v), r) == At(v, r[|p|..])
    ensures r <= p ==> Has(j, r) && Has(Replace(j, p, v), r)
    ensures !(p <= r) && !(r <= p) ==> At(Replace(j, p, v), r) == At(j, r)
    decreases |p|
  {
    if p != [] && r != [] {
      var c := Child(j, p[0]).value;
      ChildOfSetChild(j, p[0], Replace(c, p[1..], v), r[0]);
      if p[0] == r[0] {
        AtReplace(c, p[1..], v, r[1..]);
        assert p <= r <==> p[1..] <= r[1..];
        assert r <= p <==> r[1..] <= p[1..];
        assert p <= r ==> r[|p|..] == r[1..][|p[1..]|..];
      }
    }
  }

  lemma {:induction false} AtAbove(j: Json, p: Pointer, k: string, v: Json)
    requires Has(j, p + [k])
    ensures Has(j, p) && Child(At(j, p).value, k).Some?
    ensures At(Replace(j, p + [k], v), p) == Some(SetChild(At(j, p).value, k, v))
    decreases |p|
  {
    AtConcat(j, p, [k]);
    if p == [] {
      assert p + [k] == [k];
      assert Replace(Child(j, k).value, [], v) == v;
    } else {
      assert (p + [k])[1..] == p[1..] + [k];
      var c := Child(j, p[0]).value;
      AtAbove(c, p[1..], k, v);
      ChildOfSetChild(j, p[0], Replace(c, p[1..] + [k], v), p[0]);
    }
  }

  lemma {:induction false} ReplaceAbove(j: Json, p: Pointer, k: string, v: Json, w: Json)
    requires Has(j, p + [k])
    ensures Has(j, p) && Has(Replace(j, p + [k], v), p)
    ensures Replace(Replace(j, p + [k], v), p, w) == Replace(j, p, w)
    decreases |p|
  {
    AtAbove(j, p, k, v);
    if p != [] {
      assert (p + [k])[1..] == p[1..] + [k];
      var c := Child(j, p[0]).value;
      var c' := Replace(c, p[1..] + [k], v);
      ChildOfSetChild(j, p[0], c', p[0]);
      ReplaceAbove(c, p[1..], k, v, w);
      SetChildTwice(j, p[0], c', Replace(c, p[1..], w));
    }
  }

  lemma SetChildTwice(j: Json, token: string, v: Json, w: Json)
    requires Child(j, token).Some?
    ensures Child(SetChild(j, token, v), token).Some?
    ensures SetChild(SetChild(j, token, v), token, w) == SetChild(j, token, w)
  {
    ChildOfSetChild(j, token, v, token);
  }

  // ----- Erasing -----

  /** Erase what `ptr` names, and with it, unless empty objects are to be preserved, the parent
      that this leaves empty.  The cascade goes on whether or not anything was erased; it ends
      where an exception is thrown: where the pointer does not resolve, at the root, and at a
      parent that is no object, from which nothing can be erased by key. */
  function Erased(j: Json, ptr: Pointer, preserveEmpty: bool): (Json, nat)
    decreases |ptr|
  {
    if ptr == [] || At(j, Parent(ptr)).None? || !At(j, Parent(ptr)).value.Object? then (j, 0)
    else
      var members := At(j, Parent(ptr)).value.members;
      var n := if Back(ptr) in members then 1 else 0;
      var j' := Replace(j, Parent(ptr), Object(members - {Back(ptr)}));
      if !preserveEmpty && members - {Back(ptr)} == map[] then
        var (j'', m) := Erased(j', Parent(ptr), false);
        (j'', n + m)
      else (j', n)
  }

  class Conf {
    var data: Json

    constructor (data: Json)
      ensures this.data == data
    {
      this.data := data;
    }

    method Erase(ptr: Pointer, preserveEmpty: bool) returns (n: nat)
      modifies this
      ensures (data, n) == Erased(old(data), ptr, preserveEmpty)
      decreases |ptr|
    {
      n := 0;
      var parent := At(data, Parent(ptr));
      if ptr == [] || parent.None? || !parent.value.Object? {
        return;
      }
      if Back(ptr) in parent.value.members {
        n := 1;
      }
      var left := parent.value.members - {Back(ptr)};
      data := Replace(data, Parent(ptr), Object(left));
      if !preserveEmpty && left == map[] {
        var m := Erase(Parent(ptr), false);
        n := n + m;
      }
    }
  }

  // ----- What is erased -----

  /** `ptr` names a member of an object. */
  predicate IsMember(j: Json, ptr: Pointer) {
    && ptr != [] && Has(j, Parent(ptr))
    && At(j, Parent(ptr)).value.Object? && Back(ptr) in At(j, Parent(ptr)).value.members
  }

  /** The document without the member that `ptr` names. */
  function Without(j: Json, ptr: Pointer): Json
    requires IsMember(j, ptr)
  {
    Replace(j, Parent(ptr), Object(At(j, Parent(ptr)).value.members - {Back(ptr)}))
  }

  /** Without the last token of `ptr`, nothing is left of the object that contains it. */
  predicate LeftEmpty(j: Json, ptr: Pointer) {
    && ptr != [] && Has(j, Parent(ptr)) && At(j, Parent(ptr)).value.Object?
    && At(j, Parent(ptr)).value.members.Keys <= {Back(ptr)}
  }

  /** The place that erasing `ptr` erases: the highest one that can be reached from `ptr` by going
      up from members to objects that they leave empty. */
  function Victim(j: Json, ptr: Pointer, preserveEmpty: bool): Option<Pointer>
    decreases |ptr|
  {
    if !preserveEmpty && LeftEmpty(j, ptr) && IsMember(j, Parent(ptr)) then Victim(j, Parent(ptr), false)
    else if IsMember(j, ptr) then Some(ptr) else None
  }

  // ----- The erasure against what is erased -----

  lemma {:induction false} ReplaceConcat(j: Json, p: Pointer, r: Pointer, v: Json)
    requires Has(j, p + r)
    ensures Has(j, p) && Has(At(j, p).value, r)
    ensures Replace(j, p + r, v) == Replace(j, p, Replace(At(j, p).value, r, v))
    decreases |p|
  {
    AtConcat(j, p, r);
    if p == [] {
      assert p + r == r;
    } else {
      assert (p + r)[1..] == p[1..] + r;
      ReplaceConcat(Child(j, p[0]).value, p[1..], r, v);
    }
  }

  /** Above the place that is replaced only one child of each container changes. */
  lemma AboveContainer(j: Json, p: Pointer, v: Json, q: Pointer) returns (u: Json)
    requires Has(j, p) && q != [] && q <= p
    ensures Has(j, Parent(q)) && Has(j, q) && Child(At(j, Parent(q)).value, Back(q)).Some?
    ensures Replace(j, p, v) == Replace(j, q, u)
    ensures At(Replace(j, q, u), Parent(q)) == Some(SetChild(At(j, Parent(q)).value, Back(q), u))
  {
    assert p == q + p[|q|..];
    ReplaceConcat(j, q, p[|q|..], v);
    u := Replace(At(j, q).value, p[|q|..], v);
    assert q == Parent(q) + [Back(q)];
    AtAbove(j, Parent(q), Back(q), u);
  }

  lemma KeyReplaced(members: map<string, Json>, key: string, u: Json)
    requires key in members
    ensures members[key := u].Keys == members.Keys && members[key := u] - {key} == members - {key}
  {
  }

  /** Replacing what `p` names changes nothing for erasing on the way to it. */
  lemma AboveSame(j: Json, p: Pointer, v: Json, q: Pointer)
    requires Has(j, p) && q != [] && q <= p
    ensures var j' := Replace(j, p, v);
      && (IsMember(j', q) <==> IsMember(j, q)) && (LeftEmpty(j', q) <==> LeftEmpty(j, q))
      && (IsMember(j, q) ==> Without(j', q) == Without(j, q))
  {
    var u := AboveContainer(j, p, v, q);
    var o := At(j, Parent(q)).value;
    if o.Object? {
      KeyReplaced(o.members, Back(q), u);
      assert q == Parent(q) + [Back(q)];
      ReplaceAbove(j, Parent(q), Back(q), u, Object(o.members - {Back(q)}));
    }
  }

  lemma {:induction false} VictimSame(j: Json, p: Pointer, v: Json, q: Pointer)
    requires Has(j, p) && q <= p
    ensures Victim(Replace(j, p, v), q, false) == Victim(j, q, false)
    decreases |q|
  {
    if q != [] {
      AboveSame(j, p, v, q);
      if Parent(q) != [] {
        AboveSame(j, p, v, Parent(q));
      }
      VictimSame(j, p, v, Parent(q));
    }
  }

  lemma {:induction false} VictimIsMember(j: Json, ptr: Pointer, preserveEmpty: bool)
    ensures match Victim(j, ptr, preserveEmpty)
            case Some(q) => q <= ptr && IsMember(j, q) && (preserveEmpty ==> q == ptr)
            case None => !IsMember(j, ptr)
    decreases |ptr|
  {
    if ptr != [] {
      VictimIsMember(j, Parent(ptr), false);
    }
  }

  lemma HasMember(j: Json, ptr: Pointer)
    requires ptr != [] && Has(j, Parent(ptr)) && At(j, Parent(ptr)).value.Object?
    ensures Has(j, ptr) <==> IsMember(j, ptr)
  {
    AtConcat(j, Parent(ptr), [Back(ptr)]);
    assert ptr == Parent(ptr) + [Back(ptr)];
    var o := At(j, Parent(ptr)).value;
    assert At(o, [Back(ptr)]) == if Child(o, Back(ptr)).Some? then At(Child(o, Back(ptr)).value, []) else None;
  }

  lemma {:induction false} ReplaceSame(j: Json, p: Pointer)
    requires Has(j, p)
    ensures Replace(j, p, At(j, p).value) == j
    decreases |p|
  {
    if p != [] {
      var c := Child(j, p[0]).value;
      ReplaceSame(c, p[1..]);
      match j
      case Object(members) => assert members[p[0] := c] == members;
      case Array(items) => assert items[Value(p[0]) := c] == items;
    }
  }

  predicate DescribesErase(j: Json, ptr: Pointer, victim: Option<Pointer>, j': Json, n: nat) {
    match victim
    case None => j' == j && n == 0
    case Some(q) => q <= ptr && IsMember(j, q) && j' == Without(j, q)
                    && n == |ptr| - |q| + if Has(j, ptr) then 1 else 0
  }

  /** Erasing either changes nothing or deletes one subtree, the victim.  The count is the number
      of places from the victim down to `ptr`, without `ptr` if it did not exist. */
  lemma {:induction false} EraseDeletesVictim(j: Json, ptr: Pointer, preserveEmpty: bool)
    ensures var (j', n) := Erased(j, ptr, preserveEmpty);
            DescribesErase(j, ptr, Victim(j, ptr, preserveEmpty), j', n)
    decreases |ptr|
  {
    if ptr != [] && Has(j, Parent(ptr)) && At(j, Parent(ptr)).value.Object? {
      var members := At(j, Parent(ptr)).value.members;
      HasMember(j, ptr);
      KeysLeft(members, Back(ptr));
      if !preserveEmpty && LeftEmpty(j, ptr) {
        EraseDeletesVictim(Replace(j, Parent(ptr), Object(map[])), Parent(ptr), false);
        CascadeDeletesVictim(j, ptr);
      } else if !IsMember(j, ptr) {
        assert members - {Back(ptr)} == members;
        ReplaceSame(j, Parent(ptr));
      }
    }
  }

  lemma KeysLeft(members: map<string, Json>, key: string)
    ensures members - {key} == map[] <==> members.Keys <= {key}
  {
    if members.Keys <= {key} {
      assert (members - {key}).Keys == {};
    } else {
      var k :| k in members && k != key;
      assert k in members - {key};
    }
  }

  lemma CascadeDeletesVictim(j: Json, ptr: Pointer)
    requires LeftEmpty(j, ptr)
    requires var j1 := Replace(j, Parent(ptr), Object(map[]));
             var (j2, m) := Erased(j1, Parent(ptr), false);
             DescribesErase(j1, Parent(ptr), Victim(j1, Parent(ptr), false), j2, m)
    ensures var (j', n) := Erased(j, ptr, false);
            DescribesErase(j, ptr, Victim(j, ptr, false), j', n)
  {
    var p, members := Parent(ptr), At(j, Parent(ptr)).value.members;
    var j1 := Replace(j, p, Object(map[]));
    KeysLeft(members, Back(ptr));
    HasMember(j, ptr);
    VictimSame(j, p, Object(map[]), p);
    VictimIsMember(j, p, false);
    AtReplace(j, p, Object(map[]), p);
    if IsMember(j, p) {
      VictimSome(j, p);
      var q := Victim(j, p, false).value;
      AboveSame(j, p, Object(map[]), q);
    } else {
      NoVictim(j, p);
      if !IsMember(j, ptr) {
        assert members == map[];
        ReplaceSame(j, p);
      }
    }
  }

  lemma VictimSome(j: Json, p: Pointer)
    requires IsMember(j, p)
    ensures Victim(j, p, false).Some?
  {
    VictimIsMember(j, p, false);
  }

  /** From an element of an array, or from the root, nothing is erased. */
  lemma NoVictim(j: Json, p: Pointer)
    requires Has(j, p) && !IsMember(j, p)
    ensures Victim(j, p, false).None?
  {
    if p != [] {
      assert p == Parent(p) + [Back(p)];
      AtConcat(j, Parent(p), [Back(p)]);
      if At(j, Parent(p)).value.Object? {
        HasMember(j, p);
      }
    }
  }

  // ----- What changes and what does not -----

  /** Exactly the places at and below the victim are gone; every place beside it is unchanged. */
  lemma WithoutResolves(j: Json, q: Pointer, r: Pointer)
    requires IsMember(j, q)
    ensures Has(Without(j, q), r) <==> Has(j, r) && !(q <= r)
    ensures !(q <= r) && !(r <= q) ==> At(Without(j, q), r) == At(j, r)
  {
    var p, members := Parent(q), At(j, Parent(q)).value.members;
    var left := Object(members - {Back(q)});
    AtReplace(j, p, left, r);
    assert q == p + [Back(q)];
    if p <= r {
      var rest := r[|p|..];
      assert r == p + rest;
      AtConcat(j, p, rest);
      if rest != [] {
        assert q <= r <==> rest[0] == Back(q);
        assert Child(left, rest[0]) == if rest[0] == Back(q) then None else Child(Object(members), rest[0]);
      }
    }
  }

  /** How many of the first `k` prefixes of `ptr` resolved before and no longer do. */
  function Lost(j: Json, j': Json, ptr: Pointer, k: nat): nat
    requires k <= |ptr| + 1
  {
    if k == 0 then 0
    else Lost(j, j', ptr, k - 1) + if Has(j, ptr[..k - 1]) && !Has(j', ptr[..k - 1]) then 1 else 0
  }

  lemma {:induction false} LostIs(j: Json, q: Pointer, ptr: Pointer, k: nat)
    requires IsMember(j, q) && q <= ptr && k <= |ptr| && Has(j, Parent(ptr))
    ensures Lost(j, Without(j, q), ptr, k) == if k <= |q| then 0 else k - |q|
    decreases k
  {
    if k > 0 {
      LostIs(j, q, ptr, k - 1);
      LosesPrefix(j, q, ptr, k - 1);
    }
  }

  lemma LosesPrefix(j: Json, q: Pointer, ptr: Pointer, i: nat)
    requires IsMember(j, q) && q <= ptr && i < |ptr| && Has(j, Parent(ptr))
    ensures Has(j, ptr[..i]) && (Has(Without(j, q), ptr[..i]) <==> i < |q|)
  {
    WithoutResolves(j, q, ptr[..i]);
    assert Parent(ptr) == ptr[..i] + Parent(ptr)[i..];
    AtConcat(j, ptr[..i], Parent(ptr)[i..]);
    assert q <= ptr[..i] <==> |q| <= i;
  }

  lemma NothingLost(j: Json, ptr: Pointer, k: nat)
    requires k <= |ptr| + 1
    ensures Lost(j, j, ptr, k) == 0
  {
  }

  /** The main result.  Nothing happens, or one place `q` on the way to `ptr` is deleted; then
      exactly the pointers at and below `q` stop resolving, all pointers beside it resolve to
      what they did, and the root stays.  The count is the number of prefixes of `ptr` that
      resolved before and no longer do. */
  lemma EraseTheorem(j: Json, ptr: Pointer, preserveEmpty: bool)
    ensures var (j', n) := Erased(j, ptr, preserveEmpty);
      && n == Lost(j, j', ptr, |ptr| + 1)
      && match Victim(j, ptr, preserveEmpty)
         case None => j' == j && n == 0
         case Some(q) =>
           && q != [] && q <= ptr && Has(j, q) && n > 0
           && (forall r :: Has(j', r) <==> Has(j, r) && !(q <= r))
           && (forall r :: !(q <= r) && !(r <= q) ==> At(j', r) == At(j, r))
  {
    var (j', n) := Erased(j, ptr, preserveEmpty);
    EraseDeletesVictim(j, ptr, preserveEmpty);
    match Victim(j, ptr, preserveEmpty)
    case None =>
      NothingLost(j, ptr, |ptr| + 1);
    case Some(q) =>
      HasMember(j, q);
      forall r ensures Has(j', r) <==> Has(j, r) && !(q <= r) {
        WithoutResolves(j, q, r);
      }
      forall r ensures !(q <= r) && !(r <= q) ==> At(j', r) == At(j, r) {
        WithoutResolves(j, q, r);
      }
      VictimBelow(j, ptr, preserveEmpty);
      LostIs(j, q, ptr, |ptr|);
      WithoutResolves(j, q, ptr);
      assert ptr[..|ptr|] == ptr;
  }

  lemma {:induction false} VictimBelow(j: Json, ptr: Pointer, preserveEmpty: bool)
    requires Victim(j, ptr, preserveEmpty).Some?
    ensures Has(j, Parent(ptr))
  {
  }

  // ----- Empty objects -----

  ghost predicate NoEmptyObjects(j: Json) {
    forall r: Pointer :: r != [] ==> At(j, r) != Some(Object(map[]))
  }

  /** Erasing leaves an empty object behind only in an array (or if told so): where the victim
      was the only member of an object that is itself no member of an object. */
  lemma EraseLeavesNoEmptyObjects(j: Json, ptr: Pointer, preserveEmpty: bool)
    requires NoEmptyObjects(j)
    ensures NoEmptyObjects(Erased(j, ptr, preserveEmpty).0) <==>
      match Victim(j, ptr, preserveEmpty)
      case None => true
      case Some(q) => |q| > 1 ==> !LeftEmpty(j, q)
  {
    EraseDeletesVictim(j, ptr, preserveEmpty);
    match Victim(j, ptr, preserveEmpty)
    case None =>
    case Some(q) =>
      var members := At(j, Parent(q)).value.members;
      var j' := Without(j, q);
      KeysLeft(members, Back(q));
      AtReplace(j, Parent(q), Object(members - {Back(q)}), Parent(q));
      forall r: Pointer | r != [] && r != Parent(q) ensures At(j', r) != Some(Object(map[])) {
        NotEmptyBeside(j, q, r);
      }
  }

  lemma NotEmptyBeside(j: Json, q: Pointer, r: Pointer)
    requires IsMember(j, q) && r != [] && r != Parent(q) && At(j, r) != Some(Object(map[]))
    ensures At(Without(j, q), r) != Some(Object(map[]))
  {
    var p, left := Parent(q), Object(At(j, Parent(q)).value.members - {Back(q)});
    AtReplace(j, p, left, r);
    if p <= r {
      var rest := r[|p|..];
      assert r == p + rest;
      AtConcat(j, p, rest);
      assert rest != [];
    } else if r <= p {
      var rest := p[|r|..];
      assert p == r + rest && rest != [];
      AtReplace(j, p, left, p);
      AtConcat(Without(j, q), r, rest);
    }
  }

  /** No prefix of `ptr` names an array. */
  predicate OnlyObjects(j: Json, ptr: Pointer) {
    forall k | 0 <= k < |ptr| :: At(j, ptr[..k]).Some? ==> !At(j, ptr[..k]).value.Array?
  }

  /** With cascading, along a path through objects only, none is left behind. */
  lemma CascadeLeavesNoEmptyObjects(j: Json, ptr: Pointer)
    requires NoEmptyObjects(j) && OnlyObjects(j, ptr)
    ensures NoEmptyObjects(Erased(j, ptr, false).0)
  {
    EraseLeavesNoEmptyObjects(j, ptr, false);
    VictimIsMember(j, ptr, false);
    if Victim(j, ptr, false).Some? {
      VictimStops(j, ptr);
    }
  }

  /** Where the cascade stops. */
  lemma {:induction false} VictimStops(j: Json, ptr: Pointer)
    requires OnlyObjects(j, ptr) && Victim(j, ptr, false).Some?
    ensures var q := Victim(j, ptr, false).value; |q| > 1 ==> !LeftEmpty(j, q)
    decreases |ptr|
  {
    var q, p := Victim(j, ptr, false).value, Parent(ptr);
    if LeftEmpty(j, ptr) && IsMember(j, p) {
      assert forall k | 0 <= k < |p| :: p[..k] == ptr[..k];
      VictimStops(j, p);
    } else if |ptr| > 1 && LeftEmpty(j, ptr) {
      assert Parent(p) == ptr[..|p| - 1] && p == Parent(p) + [Back(p)];
      AtConcat(j, Parent(p), [Back(p)]);
      assert At(j, Parent(p)).value.Object?;
      HasMember(j, p);
    }
  }

  // ----- Erasing what does not exist -----

  /** Erasing a member that does not exist is meant to do nothing.  It does something exactly if
      empty objects are not preserved and the pointer leads into an empty one, which is a member
      of another: then that object is erased. */
  lemma EraseMissingMember(j: Json, ptr: Pointer, preserveEmpty: bool)
    requires !Has(j, ptr)
    ensures Erased(j, ptr, preserveEmpty).0 != j <==>
      !preserveEmpty && IsMember(j, Parent(ptr)) && At(j, Parent(ptr)) == Some(Object(map[]))
  {
    EraseTheorem(j, ptr, preserveEmpty);
    EraseDeletesVictim(j, ptr, preserveEmpty);
    if Has(j, Parent(ptr)) && At(j, Parent(ptr)).value.Object? {
      HasMember(j, ptr);
      var members := At(j, Parent(ptr)).value.members;
      assert LeftEmpty(j, ptr) <==> members == map[] by {
        KeysLeft(members, Back(ptr));
        assert members - {Back(ptr)} == members;
      }
      if IsMember(j, Parent(ptr)) {
        VictimSome(j, Parent(ptr));
      }
    }
  }

  /** Such a document is `{"a": {}}`: erasing `/a/b`, which does not exist, erases `/a`. */
  lemma ErasingNothingErasesParent()
    ensures var j := Object(map["a" := Object(map[])]);
      !Has(j, ["a", "b"]) && Has(j, ["a"]) && !Has(Erased(j, ["a", "b"], false).0, ["a"])
  {
    var j := Object(map["a" := Object(map[])]);
    var p: Pointer := ["a", "b"];
    assert p[1..] == ["b"] && Parent(p) == ["a"] && Parent(["a"]) == [];
    assert At(j, ["a"]) == At(Object(map[]), []) == Some(Object(map[]));
    assert At(j, p) == At(Object(map[]), ["b"]) == None;
    assert IsMember(j, ["a"]) && LeftEmpty(j, p);
    EraseTheorem(j, p, false);
    VictimSome(j, ["a"]);
    VictimIsMember(j, ["a"], false);
    assert Victim(j, p, false) == Some(["a"]);
  }
}
