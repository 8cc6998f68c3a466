/**
 Where templates stop being compositional (fable/src/fable/environment.cpp): for every template
 whose last item may be anything, the conditions of `TemplateTheorem` are not only sufficient
 but necessary.  Two environments tell an ill-formed variable from what it should mean: one in
 which every key has the same value, and one in which only keys with a special character do.
 */
module Necessity {
  import opened Prelude
  import opened Environment

  // ----- Environments that tell templates apart -----

  predicate Over(chars: set<char>, s: string) { forall c | c in s :: c in chars }

  function Strings(chars: set<char>, n: nat): set<string> {
    if n == 0 then {""} else {""} + set c, r | c in chars && r in Strings(chars, n - 1) :: [c] + r
  }

  lemma {:induction false} InStrings(chars: set<char>, n: nat, s: string)
    requires Over(chars, s) && |s| <= n
    ensures s in Strings(chars, n)
  {
    if s != "" {
      InStrings(chars, n - 1, s[1..]);
      assert s == [s[0]] + s[1..] && s[0] in chars;
    }
  }

  /** The characters that mean something to the scanner inside braces. */
  predicate Special(key: string) { '$' in key || '}' in key || '-' in key }

  /** Every key up to some length has the value "v". */
  function Constant(chars: set<char>, n: nat): Scope {
    Scope(map k | k in Strings(chars, n) :: "v", map[], false, true)
  }

  /** Exactly the keys with a special character have a value, which shows it. */
  function Marking(chars: set<char>, n: nat): Scope {
    Scope(map k | k in Strings(chars, n) && Special(k) :: "$", map[], false, true)
  }

  predicate Tame(e: Scope) {
    e.external == map[] && e.allowUndefined && forall k | k in e.defines :: e.defines[k] in {"v", "$"}
  }

  lemma {:induction false} MeaningFits(e: Scope, chars: set<char>, t: Template)
    requires Tame(e) && '$' in chars && 'v' in chars && Over(chars, Print(t))
    ensures Meaning(e, t).Ok? && Over(chars, Meaning(e, t).value) && |Meaning(e, t).value| <= |Print(t)|
  {
    match t
    case Empty =>
    case Lit(_, rest) => MeaningFits(e, chars, rest);
    case Dollar(rest) => MeaningFits(e, chars, rest);
    case Var(key, rest) =>
      MeaningFits(e, chars, key);
      MeaningFits(e, chars, rest);
    case VarOr(key, alt, rest) =>
      MeaningFits(e, chars, key);
      MeaningFits(e, chars, alt);
      MeaningFits(e, chars, rest);
  }

  /** If undefined variables are tolerated, a template always has a meaning. */
  lemma {:induction false} MeaningIsOk(e: Scope, t: Template)
    requires e.allowUndefined
    ensures Meaning(e, t).Ok?
  {
    match t
    case Empty =>
    case Lit(_, rest) => MeaningIsOk(e, rest);
    case Dollar(rest) => MeaningIsOk(e, rest);
    case Var(key, rest) =>
      MeaningIsOk(e, key);
      MeaningIsOk(e, rest);
    case VarOr(key, alt, rest) =>
      MeaningIsOk(e, key);
      MeaningIsOk(e, alt);
      MeaningIsOk(e, rest);
  }

  // ----- Every key has the same value -----

  /** If it succeeds, the result is over the characters, and not longer than `size` nor empty,
      unless `size` is 0. */
  predicate Fits(chars: set<char>, r: Interpolated, size: nat) {
    r.Ok? ==> Over(chars, r.value) && |r.value| <= size && (size > 0 ==> r.value != "")
  }

  lemma PrependFits(chars: set<char>, text: string, r: Interpolated, size: nat)
    requires Over(chars, text) && Fits(chars, r, size)
    ensures Fits(chars, Prepend(text, r), |text| + size)
  {
  }

  lemma {:induction false} ConstantJoin(chars: set<char>, n: nat, rest: string, pending: string, depth: nat, m: nat)
    requires 'v' in chars && Over(chars, rest) && Over(chars, pending)
    requires |pending| + |rest| <= m <= n && (depth > 0 ==> pending != "")
    ensures Fits(chars, Join(Constant(chars, n), Lex(rest, pending, depth), m), |pending| + |rest|)
    decreases m, 0, |rest|
  {
    var e := Constant(chars, n);
    if rest == "" {
      assert pending + "" == pending;
    } else if rest[0] == '$' {
      if |rest| > 1 && rest[1] == '$' {
        ConstantJoin(chars, n, rest[2..], "$", depth, m);
        PrependFits(chars, pending, Join(e, Lex(rest[2..], "$", depth), m), |rest| - 1);
      } else if |rest| > 1 && rest[1] == '{' {
        if depth == 0 {
          ConstantJoin(chars, n, rest[2..], "${", 1, m);
          PrependFits(chars, pending, Join(e, Lex(rest[2..], "${", 1), m), |rest|);
        } else {
          ConstantJoin(chars, n, rest[2..], pending + "${", depth + 1, m);
        }
      }
    } else if rest[0] == '}' && depth == 1 {
      ConstantJoin(chars, n, rest[1..], "", 0, m);
      ConstantEvaluate(chars, n, if |pending| >= 2 then pending[2..] else rest[1..]);
      PrependFits(chars, "v", Join(e, Lex(rest[1..], "", 0), m), |rest| - 1);
    } else {
      ConstantJoin(chars, n, rest[1..], pending + [rest[0]],
                   if rest[0] == '}' && depth > 1 then depth - 1 else depth, m);
    }
  }

  lemma {:induction false} ConstantEvaluate(chars: set<char>, n: nat, s: string)
    requires 'v' in chars && Over(chars, s) && |s| <= n
    ensures Evaluate(Constant(chars, n), s).Ok? ==> Evaluate(Constant(chars, n), s).value == "v"
    decreases |s|, 2
  {
    var rawKey := s[..FirstDash(s)];
    ConstantJoin(chars, n, rawKey, "", 0, |rawKey|);
    var key := Interpolate(Constant(chars, n), rawKey);
    if key.Ok? {
      InStrings(chars, n, key.value);
    }
  }

  /** The first piece after an opening brace: an error, text that a `$$` cuts off, or a variable
      whose body keeps its braces. */
  lemma {:induction false} Scan(rest: string, pending: string, depth: nat) returns (body: string, tail: string)
    requires |pending| >= 2
    ensures var ps := Lex(rest, pending, depth + 1);
      || (ps.End? && ps.error.Some?)
      || (ps.Text? && pending <= ps.text)
      || (rest == body + ("}" + tail) && Held(body, depth) && OpenBraces(body, depth) == 0
          && ps == Variable((pending + body)[2..], Lex(tail, "", 0)))
    decreases |rest|
  {
    body, tail := "", "";
    if rest == "" {
    } else if rest[0] == '$' {
      if |rest| > 1 && rest[1] == '{' {
        var inner;
        inner, tail := Scan(rest[2..], pending + "${", depth + 1);
        body := "${" + inner;
        assert rest == "${" + rest[2..];
        BodyGrows("${", inner, tail, pending);
      }
    } else if rest[0] == '}' && depth == 0 {
      tail := rest[1..];
      assert rest == "" + ("}" + tail) && pending + "" == pending;
    } else {
      var inner;
      inner, tail := Scan(rest[1..], pending + [rest[0]], if rest[0] == '}' then depth - 1 else depth);
      body := [rest[0]] + inner;
      assert rest == [rest[0]] + rest[1..];
      BodyGrows([rest[0]], inner, tail, pending);
    }
  }

  lemma BodyGrows(x: string, inner: string, tail: string, pending: string)
    ensures x + (inner + ("}" + tail)) == x + inner + ("}" + tail)
    ensures pending + x + inner == pending + (x + inner)
    ensures (x + inner)[|x|..] == inner
  {
  }

  function Alphabet(t: Template): set<char> { (set c | c in Print(t)) + {'$', 'v'} }

  predicate IsVariable(t: Template) { (t.Var? || t.VarOr?) && t.rest.Empty? }

  lemma PrintOfVariable(t: Template)
    requires IsVariable(t)
    ensures Print(t) == "${" + (Body(t) + "}") && Over(Alphabet(t), Body(t)) && Over(Alphabet(t), Print(t))
    ensures Lex(Print(t), "", 0) == Text("", Lex(Body(t) + "}", "${", 1))
  {
    PrintVariable(t);
    assert "}" + Print(t.rest) == "}";
    LexEnter(Body(t) + "}", "");
    assert forall c | c in Body(t) :: c in Print(t);
  }

  lemma ConstantChosen(chars: set<char>, n: nat, rawKey: string, key: Interpolated, alt: Option<Interpolated>)
    requires key.Ok? && Over(chars, key.value) && |key.value| <= n
    ensures Chosen(Constant(chars, n), rawKey, key, alt) == Ok("v")
  {
    InStrings(chars, n, key.value);
  }

  lemma KeyFits(t: Template)
    requires IsVariable(t)
    ensures Over(Alphabet(t), Print(t.key)) && |Print(t.key)| <= |Print(t)|
  {
    PrintOfVariable(t);
    assert forall c | c in Print(t.key) :: c in Body(t);
  }

  lemma ConstantKey(t: Template, alt: Option<Interpolated>)
    requires IsVariable(t)
    ensures var e := Constant(Alphabet(t), |Print(t)|);
            Then(Chosen(e, Print(t.key), Meaning(e, t.key), alt), Ok("")) == Ok("v")
  {
    var e := Constant(Alphabet(t), |Print(t)|);
    KeyFits(t);
    MeaningFits(e, Alphabet(t), t.key);
    ConstantChosen(Alphabet(t), |Print(t)|, Print(t.key), Meaning(e, t.key), alt);
    assert "v" + "" == "v";
  }

  lemma ConstantMeaning(t: Template)
    requires IsVariable(t)
    ensures Meaning(Constant(Alphabet(t), |Print(t)|), t) == Ok("v")
  {
    var e := Constant(Alphabet(t), |Print(t)|);
    match t
    case Var(_, _) => ConstantKey(t, None);
    case VarOr(_, alt, _) => ConstantKey(t, Some(Meaning(e, alt)));
  }

  /** If a variable comes out right where every key has the same value, its body keeps its braces. */
  lemma BodyIsHeld(t: Template)
    requires IsVariable(t)
    requires var e := Constant(Alphabet(t), |Print(t)|); Interpolate(e, Print(t)) == Meaning(e, t)
    ensures Held(Body(t), 0) && OpenBraces(Body(t), 0) == 0
  {
    var n := |Print(t)|;
    var e := Constant(Alphabet(t), n);
    PrintOfVariable(t);
    ConstantMeaning(t);
    var ps := Lex(Body(t) + "}", "${", 1);
    PrependNothing(Join(e, ps, n));
    assert Join(e, ps, n) == Ok("v");
    var body, tail := Scan(Body(t) + "}", "${", 0);
    if ps.Variable? {
      assert ("${" + body)[2..] == body;
      ConstantEvaluate(Alphabet(t), n, body);
      ConstantJoin(Alphabet(t), n, tail, "", 0, n);
      assert tail == "";
      assert Body(t) == (Body(t) + "}")[..|Body(t)|] == body;
    }
  }

  // ----- Only special keys have a value -----

  predicate MarksOnly(e: Scope) {
    e.external == map[] && e.allowUndefined && forall k | k in e.defines :: Special(k)
  }

  predicate Quiet(s: string, dashless: bool) { '$' !in s && '}' !in s && (dashless ==> '-' !in s) }

  /** What stands before a dash keeps its braces too. */
  lemma {:induction false} HeldBefore(a: string, b: string, depth: nat)
    requires Held(a + ("-" + b), depth)
    ensures Held(a, depth)
    decreases |a|
  {
    var s := a + ("-" + b);
    if a == "" {
    } else if a[0] == '$' {
      assert |a| > 1;
      assert s[2..] == a[2..] + ("-" + b);
      HeldBefore(a[2..], b, depth + 1);
    } else {
      assert s[1..] == a[1..] + ("-" + b);
      HeldBefore(a[1..], b, if a[0] == '}' then depth - 1 else depth);
    }
  }

  lemma HeldOne(v: string, x: string)
    requires Held(v, 0) && x in {"${", "}"} && (x == "}" ==> OpenBraces(v, 0) > 0)
    ensures Held(v + x, 0) && OpenBraces(v + x, 0) == OpenBraces(v, 0) + (if x == "}" then -1 else 1)
  {
    HeldConcat(v, x, 0);
    var k := OpenBraces(v, 0);
    if x == "${" {
      assert x[2..] == "" && OpenBraces("", k + 1) == k + 1 && Held("", k + 1);
    } else {
      assert x[1..] == "" && OpenBraces("", k - 1) == k - 1 && Held("", k - 1);
    }
  }

  lemma HeldChar(v: string, c: char)
    requires Held(v, 0) && c != '$' && c != '}'
    ensures Held(v + [c], 0) && OpenBraces(v + [c], 0) == OpenBraces(v, 0)
  {
    HeldConcat(v, [c], 0);
    assert [c][1..] == "";
  }

  /** What is pending: quiet text outside of braces, a held body inside of them. */
  predicate QuietSoFar(pending: string, depth: nat, dashless: bool) {
    if depth == 0 then Quiet(pending, dashless)
    else
      && |pending| >= 2 && pending[..2] == "${" && (dashless ==> '-' !in pending)
      && Held(pending[2..], 0) && OpenBraces(pending[2..], 0) == depth - 1
  }

  predicate QuietResult(r: Interpolated, dashless: bool) { r.Ok? ==> Quiet(r.value, dashless) }

  lemma PrependQuiet(text: string, r: Interpolated, dashless: bool)
    requires Quiet(text, dashless) && QuietResult(r, dashless)
    ensures QuietResult(Prepend(text, r), dashless)
  {
  }

  lemma PendingMore(pending: string, x: string)
    requires |pending| >= 2
    ensures (pending + x)[2..] == pending[2..] + x && (pending + x)[..2] == pending[..2]
  {
  }

  /** There, whatever keeps its braces comes out without any special character. */
  lemma {:induction false} QuietJoin(e: Scope, rest: string, pending: string, depth: nat, m: nat, dashless: bool)
    requires MarksOnly(e) && Held(rest, depth) && QuietSoFar(pending, depth, dashless)
    requires |pending| + |rest| <= m && (dashless ==> '-' !in rest)
    ensures QuietResult(Join(e, Lex(rest, pending, depth), m), dashless)
    decreases m, 0, |rest|
  {
    if rest == "" {
      assert pending + "" == pending;
    } else if rest[0] == '$' {
      if depth == 0 {
        assert "${"[2..] == "";
        QuietJoin(e, rest[2..], "${", 1, m, dashless);
        PrependQuiet(pending, Join(e, Lex(rest[2..], "${", 1), m), dashless);
      } else {
        HeldOne(pending[2..], "${");
        PendingMore(pending, "${");
        QuietJoin(e, rest[2..], pending + "${", depth + 1, m, dashless);
      }
    } else if rest[0] == '}' {
      if depth == 1 {
        QuietEvaluate(e, pending[2..], dashless);
        QuietJoin(e, rest[1..], "", 0, m, dashless);
        var value := Evaluate(e, pending[2..]);
        if value.Ok? {
          PrependQuiet(value.value, Join(e, Lex(rest[1..], "", 0), m), dashless);
        }
      } else {
        HeldOne(pending[2..], "}");
        PendingMore(pending, "}");
        QuietJoin(e, rest[1..], pending + [rest[0]], depth - 1, m, dashless);
      }
    } else {
      if depth > 0 {
        HeldChar(pending[2..], rest[0]);
        PendingMore(pending, [rest[0]]);
      }
      QuietJoin(e, rest[1..], pending + [rest[0]], depth, m, dashless);
    }
  }

  lemma {:induction false} QuietInterpolate(e: Scope, s: string, dashless: bool)
    requires MarksOnly(e) && Held(s, 0) && (dashless ==> '-' !in s)
    ensures QuietResult(Interpolate(e, s), dashless)
    decreases |s|, 1
  {
    QuietJoin(e, s, "", 0, |s|, dashless);
  }

  lemma {:induction false} QuietEvaluate(e: Scope, s: string, dashless: bool)
    requires MarksOnly(e) && Held(s, 0) && OpenBraces(s, 0) == 0 && (dashless ==> '-' !in s)
    ensures QuietResult(Evaluate(e, s), dashless)
    decreases |s|, 2
  {
    var pos := FirstDash(s);
    var rawKey := s[..pos];
    var key := Interpolate(e, rawKey);
    if pos == |s| {
      assert rawKey == s;
      QuietInterpolate(e, rawKey, true);
      QuietChosen(e, rawKey, key, None, dashless);
    } else {
      var alt := s[pos + 1..];
      assert s == rawKey + ("-" + alt);
      HeldBefore(rawKey, alt, 0);
      QuietInterpolate(e, rawKey, true);
      if key.Ok? {
        HeldBehind(e, rawKey, alt);
        QuietInterpolate(e, alt, false);
        assert !dashless;
        QuietChosen(e, rawKey, key, Some(Interpolate(e, alt)), dashless);
      }
    }
  }

  lemma QuietChosen(e: Scope, rawKey: string, key: Interpolated, alt: Option<Interpolated>, dashless: bool)
    requires MarksOnly(e) && QuietResult(key, true) && (alt.Some? ==> QuietResult(alt.value, dashless))
    ensures QuietResult(Chosen(e, rawKey, key, alt), dashless)
  {
  }

  /** When the key comes out, the alternative keeps its braces as well. */
  lemma HeldBehind(e: Scope, rawKey: string, alt: string)
    requires Held(rawKey + ("-" + alt), 0) && Held(rawKey, 0) && Interpolate(e, rawKey).Ok?
    ensures Held(alt, 0)
  {
    if OpenBraces(rawKey, 0) > 0 {
      OpenBraceFails(e, rawKey);
    }
    HeldConcat(rawKey, "-" + alt, 0);
    assert ("-" + alt)[1..] == alt;
  }

  // ----- What a quiet meaning says about the template -----

  /** No special character is there as text, and no key has one as its meaning. */
  predicate Sound(e: Scope, t: Template) {
    match t
    case Empty => true
    case Lit(c, rest) => c != '$' && c != '}' && Sound(e, rest)
    case Dollar(_) => false
    case Var(key, rest) => Sound(e, key) && SoundKey(e, key) && Sound(e, rest)
    case VarOr(key, alt, rest) => Sound(e, key) && SoundKey(e, key) && Sound(e, alt) && Sound(e, rest)
  }

  predicate SoundKey(e: Scope, key: Template) { Meaning(e, key).Ok? && !Special(Meaning(e, key).value) }

  lemma {:induction false} QuietIsSound(chars: set<char>, n: nat, t: Template)
    requires '$' in chars && 'v' in chars && Over(chars, Print(t)) && |Print(t)| <= n
    requires Meaning(Marking(chars, n), t).Ok? && Quiet(Meaning(Marking(chars, n), t).value, false)
    ensures Sound(Marking(chars, n), t)
  {
    var e := Marking(chars, n);
    match t
    case Empty =>
    case Lit(c, rest) =>
      QuietRest(e, Ok([c]), rest);
      QuietIsSound(chars, n, rest);
    case Dollar(rest) =>
      QuietRest(e, Ok("$"), rest);
    case Var(key, rest) =>
      QuietRest(e, Chosen(e, Print(key), Meaning(e, key), None), rest);
      QuietKey(chars, n, key, None);
      QuietIsSound(chars, n, key);
      QuietIsSound(chars, n, rest);
    case VarOr(key, alt, rest) =>
      QuietRest(e, Chosen(e, Print(key), Meaning(e, key), Some(Meaning(e, alt))), rest);
      QuietKey(chars, n, key, Some(Meaning(e, alt)));
      QuietIsSound(chars, n, key);
      QuietIsSound(chars, n, alt);
      QuietIsSound(chars, n, rest);
  }

  lemma QuietRest(e: Scope, first: Interpolated, rest: Template)
    requires Then(first, Meaning(e, rest)).Ok? && Quiet(Then(first, Meaning(e, rest)).value, false)
    ensures first.Ok? && Quiet(first.value, false) && Meaning(e, rest).Ok? && Quiet(Meaning(e, rest).value, false)
  {
    var a, b := first.value, Meaning(e, rest).value;
    assert forall c | c in a :: c in a + b;
    assert forall c | c in b :: c in a + b;
  }

  lemma QuietKey(chars: set<char>, n: nat, key: Template, alt: Option<Interpolated>)
    requires '$' in chars && 'v' in chars && Over(chars, Print(key)) && |Print(key)| <= n
    requires var r := Chosen(Marking(chars, n), Print(key), Meaning(Marking(chars, n), key), alt);
             r.Ok? && Quiet(r.value, false)
    ensures SoundKey(Marking(chars, n), key)
    ensures alt.Some? ==> alt.value == Chosen(Marking(chars, n), Print(key), Meaning(Marking(chars, n), key), alt)
  {
    MeaningFits(Marking(chars, n), chars, key);
    InStrings(chars, n, Meaning(Marking(chars, n), key).value);
  }

  lemma {:induction false} SoundIsBraced(e: Scope, t: Template)
    requires Sound(e, t)
    ensures Braced(t)
  {
    match t
    case Empty =>
    case Lit(_, rest) => SoundIsBraced(e, rest);
    case Dollar(_) =>
    case Var(key, rest) =>
      SoundIsBraced(e, key);
      SoundIsBraced(e, rest);
    case VarOr(key, alt, rest) =>
      SoundIsBraced(e, key);
      SoundIsBraced(e, alt);
      SoundIsBraced(e, rest);
  }

  lemma {:induction false} BracedIsHeld(t: Template, depth: nat)
    requires Braced(t)
    ensures Held(Print(t), depth) && OpenBraces(Print(t), depth) == depth
    decreases t, 1
  {
    match t
    case Empty =>
    case Lit(c, rest) =>
      BracedIsHeld(rest, depth);
      assert Print(t)[1..] == Print(rest);
    case Dollar(_) =>
    case Var(key, rest) =>
      BodyKeepsBraces(t, depth + 1);
      HeldAround(Body(t), Print(rest), depth);
      PrintVariable(t);
      BracedIsHeld(rest, depth);
    case VarOr(key, alt, rest) =>
      BodyKeepsBraces(t, depth + 1);
      HeldAround(Body(t), Print(rest), depth);
      PrintVariable(t);
      BracedIsHeld(rest, depth);
  }

  lemma {:induction false} BodyKeepsBraces(t: Template, depth: nat)
    requires (t.Var? || t.VarOr?) && Braced(t)
    ensures Held(Body(t), depth) && OpenBraces(Body(t), depth) == depth
    decreases t, 0
  {
    BracedIsHeld(t.key, depth);
    if t.VarOr? {
      BracedIsHeld(t.alt, depth);
      HeldWithDash(Print(t.key), Print(t.alt), depth);
    }
  }

  lemma HeldWithDash(key: string, alt: string, depth: nat)
    requires Held(key, depth) && OpenBraces(key, depth) == depth
    requires Held(alt, depth) && OpenBraces(alt, depth) == depth
    ensures Held(key + "-" + alt, depth) && OpenBraces(key + "-" + alt, depth) == depth
  {
    HeldConcat(key, "-" + alt, depth);
    assert ("-" + alt)[1..] == alt;
    assert key + ("-" + alt) == key + "-" + alt;
  }

  lemma HeldAround(body: string, rest: string, depth: nat)
    requires Held(body, depth + 1) && OpenBraces(body, depth + 1) == depth + 1
    ensures var s := "${" + (body + ("}" + rest));
      (Held(s, depth) <==> Held(rest, depth)) && OpenBraces(s, depth) == OpenBraces(rest, depth)
  {
    var s := "${" + (body + ("}" + rest));
    assert s[2..] == body + ("}" + rest);
    HeldConcat(body, "}" + rest, depth + 1);
    assert ("}" + rest)[1..] == rest;
  }

  lemma {:induction false} HeldDeeper(s: string, depth: nat)
    requires Held(s, depth)
    ensures Held(s, depth + 1) && OpenBraces(s, depth + 1) == OpenBraces(s, depth) + 1
    decreases |s|
  {
    if s != "" {
      if s[0] == '$' {
        HeldDeeper(s[2..], depth + 1);
      } else {
        HeldDeeper(s[1..], if s[0] == '}' then depth - 1 else depth);
      }
    }
  }

  lemma {:induction false} FirstDashBefore(a: string, b: string)
    requires '-' in a
    ensures FirstDash(a + b) == FirstDash(a) < |a| && (a + b)[..FirstDash(a)] == a[..FirstDash(a)]
  {
    if a[0] != '-' {
      assert (a + b)[1..] == a[1..] + b;
      FirstDashBefore(a[1..], b);
    }
  }

  /** A dash in the text of a key but not in its meaning is inside inner braces. */
  lemma {:induction false} DashInside(e: Scope, t: Template)
    requires Sound(e, t) && SoundKey(e, t) && '-' in Print(t)
    ensures OpenBraces(Print(t)[..FirstDash(Print(t))], 0) > 0
  {
    var s := Print(t);
    SoundIsBraced(e, t);
    match t
    case Lit(c, rest) =>
      SoundKeyRest(e, Ok([c]), rest);
      DashInside(e, rest);
      FirstDashAfter([c], Print(rest));
      var p := Print(rest)[..FirstDash(Print(rest))];
      assert s[..FirstDash(s)] == [c] + p && ([c] + p)[1..] == p;
    case Var(key, rest) =>
      SoundKeyRest(e, Chosen(e, Print(key), Meaning(e, key), None), rest);
      PrintVariable(t);
      BodyKeepsBraces(t, 0);
      if '-' in Body(t) {
        DashInBody(Body(t), Print(rest));
      } else {
        DashInside(e, rest);
        BodyKeepsBraces(t, 1);
        DashBehindBody(Body(t), Print(rest));
      }
    case VarOr(key, alt, rest) =>
      PrintVariable(t);
      BodyKeepsBraces(t, 0);
      DashInBody(Body(t), Print(rest));
  }

  lemma SoundKeyRest(e: Scope, first: Interpolated, rest: Template)
    requires Then(first, Meaning(e, rest)).Ok? && !Special(Then(first, Meaning(e, rest)).value)
    ensures SoundKey(e, rest) && first.Ok? && !Special(first.value)
  {
    var a, b := first.value, Meaning(e, rest).value;
    assert forall c | c in a :: c in a + b;
    assert forall c | c in b :: c in a + b;
  }

  lemma DashInBody(body: string, rest: string)
    requires '-' in body && Held(body, 0)
    ensures var s := "${" + (body + ("}" + rest)); OpenBraces(s[..FirstDash(s)], 0) > 0
  {
    var p := body[..FirstDash(body)];
    DashPosition(body, rest);
    HeldToDash(body);
    HeldDeeper(p, 0);
    assert ("${" + p)[2..] == p;
  }

  lemma DashPosition(body: string, rest: string)
    requires '-' in body
    ensures var s := "${" + (body + ("}" + rest)); s[..FirstDash(s)] == "${" + body[..FirstDash(body)]
  {
    var tail := body + ("}" + rest);
    FirstDashAfter("${", tail);
    FirstDashBefore(body, "}" + rest);
    assert ("${" + tail)[..2 + FirstDash(tail)] == "${" + tail[..FirstDash(tail)];
  }

  lemma HeldToDash(body: string)
    requires '-' in body && Held(body, 0)
    ensures Held(body[..FirstDash(body)], 0)
  {
    var k := FirstDash(body);
    assert body == body[..k] + ("-" + body[k + 1..]);
    HeldBefore(body[..k], body[k + 1..], 0);
  }

  lemma DashBehindBody(body: string, rest: string)
    requires Held(body, 1) && OpenBraces(body, 1) == 1 && '-' !in body
    requires OpenBraces(rest[..FirstDash(rest)], 0) > 0
    ensures var s := "${" + (body + ("}" + rest)); OpenBraces(s[..FirstDash(s)], 0) > 0
  {
    var s, front, p := "${" + (body + ("}" + rest)), "${" + body + "}", rest[..FirstDash(rest)];
    RegroupAround(body, rest);
    RegroupAround(body, p);
    FirstDashAfter(front, rest);
    assert (front + rest)[..|front| + |p|] == front + p;
    HeldAround(body, p, 0);
  }

  lemma {:induction false} DashlessIsWellFormed(t: Template)
    requires Braced(t) && '-' !in Print(t)
    ensures WellFormed(t, true)
  {
    match t
    case Empty =>
    case Lit(_, rest) => DashlessIsWellFormed(rest);
    case Dollar(_) =>
    case Var(key, rest) =>
      DashlessIsWellFormed(key);
      DashlessIsWellFormed(rest);
    case VarOr(_, _, _) =>
  }

  /** A sound template that is not well-formed has a dash inside inner braces of a key, and
      that fails. */
  lemma {:induction false} SoundFails(e: Scope, t: Template, pending: string, n: nat)
    requires MarksOnly(e) && Sound(e, t) && !WellFormed(t, true) && |pending| + |Print(t)| <= n
    ensures Join(e, Lex(Print(t), pending, 0), n).Err?
  {
    SoundIsBraced(e, t);
    match t
    case Lit(c, rest) =>
      LexOne(c, Print(rest), pending, 0);
      SoundFails(e, rest, pending + [c], n);
    case Var(key, rest) =>
      LexVariable(t, pending);
      if '-' in Print(key) {
        KeyFails(e, t);
      } else {
        DashlessIsWellFormed(key);
        SoundFails(e, rest, "", n);
      }
    case VarOr(key, alt, rest) =>
      LexVariable(t, pending);
      if '-' in Print(key) {
        KeyFails(e, t);
      } else {
        DashlessIsWellFormed(key);
        if WellFormed(alt, true) {
          SoundFails(e, rest, "", n);
        } else {
          SoundFails(e, alt, "", |Print(alt)|);
          EvaluateKeyOr(e, Print(key), Print(alt));
          NestedIsWellFormed(key);
          TemplateTheorem(e, key);
        }
      }
  }

  lemma KeyFails(e: Scope, t: Template)
    requires (t.Var? || t.VarOr?) && Sound(e, t) && '-' in Print(t.key)
    ensures Evaluate(e, Body(t)).Err?
  {
    DashInside(e, t.key);
    if t.VarOr? {
      DashStays(Print(t.key), Print(t.alt));
    }
    NestedDashFails(e, Body(t));
  }

  lemma DashStays(key: string, alt: string)
    requires '-' in key
    ensures var s := key + "-" + alt; s[..FirstDash(s)] == key[..FirstDash(key)]
  {
    FirstDashBefore(key, "-" + alt);
    assert key + "-" + alt == key + ("-" + alt);
  }

  // ----- The theorems -----

  /** For every variable that is not well-formed there is an environment in which it does not
      come out as it should. */
  lemma TellVariable(t: Template) returns (e: Scope)
    requires IsVariable(t) && !WellFormed(t, false)
    ensures e.allowUndefined && Interpolate(e, Print(t)) != Meaning(e, t)
  {
    var n := |Print(t)|;
    e := Constant(Alphabet(t), n);
    if Interpolate(e, Print(t)) == Meaning(e, t) {
      BodyIsHeld(t);
      e := Marking(Alphabet(t), n);
      if Interpolate(e, Print(t)) == Meaning(e, t) {
        PrintOfVariable(t);
        MeaningFits(e, Alphabet(t), t);
        QuietVariable(e, t);
        QuietIsSound(Alphabet(t), n, t);
        SoundFails(e, t, "", n);
        assert false;
      }
    }
  }

  lemma QuietVariable(e: Scope, t: Template)
    requires IsVariable(t) && MarksOnly(e) && Held(Body(t), 0) && OpenBraces(Body(t), 0) == 0
    ensures QuietResult(Interpolate(e, Print(t)), false)
  {
    PrintOfVariable(t);
    QuietInBraces(e, Body(t), |Print(t)|);
    PrependNothing(Join(e, Lex(Body(t) + "}", "${", 1), |Print(t)|));
  }

  lemma QuietInBraces(e: Scope, body: string, n: nat)
    requires MarksOnly(e) && Held(body, 0) && OpenBraces(body, 0) == 0 && |body| + 3 <= n
    ensures QuietResult(Join(e, Lex(body + "}", "${", 1), n), false)
  {
    HeldDeeper(body, 0);
    HeldConcat(body, "}", 1);
    assert "}"[1..] == "" && "${"[2..] == "";
    QuietJoin(e, body + "}", "${", 1, n, false);
  }

  /** All items of the template but the last are well-formed. */
  predicate LastIsOpen(t: Template) {
    match t
    case Empty => true
    case Lit(c, rest) => rest.Empty? || (c != '$' && LastIsOpen(rest))
    case Dollar(rest) => LastIsOpen(rest)
    case Var(key, rest) => rest.Empty? || (WellFormed(Var(key, Empty), false) && LastIsOpen(rest))
    case VarOr(key, alt, rest) => rest.Empty? || (WellFormed(VarOr(key, alt, Empty), false) && LastIsOpen(rest))
  }

  lemma {:induction false} AnyBound(e: Scope, ps: Pieces, m: nat, n: nat)
    requires Below(ps, m) && Below(ps, n)
    ensures Join(e, ps, m) == Join(e, ps, n)
  {
    match ps
    case End(_) =>
    case Text(_, next) => AnyBound(e, next, m, n);
    case Variable(_, next) => AnyBound(e, next, m, n);
  }

  /** Outside of braces, pending text comes out first. */
  lemma {:induction false} PendingFirst(e: Scope, s: string, pending: string, n: nat)
    requires |pending| + |s| <= n
    ensures Join(e, Lex(s, pending, 0), n) == Prepend(pending, Interpolate(e, s))
    decreases |s|
  {
    if s == "" {
      assert pending + "" == pending;
      PrependNothing(Ok(""));
    } else if s[0] == '$' {
      if |s| > 1 && (s[1] == '$' || s[1] == '{') {
        var next := if s[1] == '$' then Lex(s[2..], "$", 0) else Lex(s[2..], "${", 1);
        AnyBound(e, next, n, |s|);
        PrependNothing(Join(e, next, n));
      }
    } else {
      PendingFirst(e, s[1..], pending + [s[0]], n);
      PendingFirst(e, s[1..], [s[0]], |s|);
      assert "" + [s[0]] == [s[0]];
      PrependTwice(pending, [s[0]], Interpolate(e, s[1..]));
    }
  }

  /** What the first item of a template means. */
  function First(e: Scope, t: Template): Interpolated
    requires !t.Empty?
  {
    match t
    case Lit(c, _) => Ok([c])
    case Dollar(_) => Ok("$")
    case Var(key, _) => Chosen(e, Print(key), Meaning(e, key), None)
    case VarOr(key, alt, _) => Chosen(e, Print(key), Meaning(e, key), Some(Meaning(e, alt)))
  }

  /** A well-formed first item comes out as it should, whatever follows. */
  lemma FirstItem(e: Scope, t: Template)
    requires !t.Empty? && LastIsOpen(t) && !t.rest.Empty?
    ensures Interpolate(e, Print(t)) == Then(First(e, t), Interpolate(e, Print(t.rest)))
  {
    var s := Print(t.rest);
    match t
    case Lit(c, _) =>
      LexOne(c, s, "", 0);
      assert "" + [c] == [c];
      PendingFirst(e, s, [c], |Print(t)|);
    case Dollar(_) =>
      assert Print(t)[2..] == s;
      PrependNothing(Prepend("$", Interpolate(e, s)));
      PendingFirst(e, s, "$", |Print(t)|);
    case Var(key, _) => FirstVariable(e, t, Var(key, Empty));
    case VarOr(key, alt, _) => FirstVariable(e, t, VarOr(key, alt, Empty));
  }

  lemma FirstVariable(e: Scope, t: Template, alone: Template)
    requires (t.Var? || t.VarOr?) && WellFormed(alone, false)
    requires alone == if t.Var? then Var(t.key, Empty) else VarOr(t.key, t.alt, Empty)
    ensures Interpolate(e, Print(t)) == Then(First(e, t), Interpolate(e, Print(t.rest)))
  {
    WellFormedIsBraced(t.key);
    if t.VarOr? {
      WellFormedIsBraced(t.alt);
    }
    LexVariable(t, "");
    EvaluateBody(e, alone);
    assert Body(alone) == Body(t);
    var next := Lex(Print(t.rest), "", 0);
    var n := |Print(t)|;
    AnyBound(e, next, n, |Print(t.rest)|);
    assert Join(e, Variable(Body(t), next), n) == Then(First(e, t), Interpolate(e, Print(t.rest)));
    PrependNothing(Join(e, Variable(Body(t), next), n));
  }

  lemma ThenIsInjective(first: Interpolated, a: Interpolated, b: Interpolated)
    requires first.Ok? && Then(first, a) == Then(first, b)
    ensures a == b
  {
    if a.Ok? {
      assert (first.value + a.value)[|first.value|..] == a.value;
      assert (first.value + b.value)[|first.value|..] == b.value;
    }
  }

  lemma {:induction false} Tell(t: Template) returns (e: Scope)
    requires LastIsOpen(t) && !WellFormed(t, false)
    ensures e.allowUndefined && Interpolate(e, Print(t)) != Meaning(e, t)
  {
    if t.rest.Empty? {
      if t.Lit? {
        e := Scope(map[], map[], false, true);
        assert Print(t) == "$";
        MeaningIsOk(e, t);
      } else {
        e := TellVariable(t);
      }
    } else {
      e := Tell(t.rest);
      FirstItem(e, t);
      MeaningIsOk(e, t);
      MeaningIsOk(e, t.rest);
      assert Meaning(e, t) == Then(First(e, t), Meaning(e, t.rest));
      if Interpolate(e, Print(t)) == Meaning(e, t) {
        ThenIsInjective(First(e, t), Interpolate(e, Print(t.rest)), Meaning(e, t.rest));
      }
    }
  }

  /** Main result: if all items but the last are known to be well-formed, interpolating the
      printed template gives its meaning in every environment exactly if the last one is
      well-formed too.  So no condition on a variable, however its key and its alternative are
      made, can be dropped. */
  lemma TemplateTheoremIff(t: Template)
    requires LastIsOpen(t)
    ensures WellFormed(t, false) <==> forall e: Scope :: Interpolate(e, Print(t)) == Meaning(e, t)
  {
    if WellFormed(t, false) {
      forall e: Scope ensures Interpolate(e, Print(t)) == Meaning(e, t) {
        TemplateTheorem(e, t);
      }
    } else {
      var e := Tell(t);
    }
  }
}
