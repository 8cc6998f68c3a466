/**
 Template interpolation (fable/src/fable/environment.cpp).

 The program scans a string with `${KEY}`, `${KEY-ALT}` and `$$` once, writing its output and
 evaluating variables as it goes: `InterpolateLoop`, mutually recursive with `EvaluateCall`.
 It is proved against a meaning in two phases: `Lex` cuts the string into texts and variables
 without looking at the environment, `Join` evaluates the pieces from left to right.
 The theorems then say that a printed template evaluates compositionally.
 */
module Environment {
  import opened Prelude

  datatype Failure =
    | UnterminatedDollar
    | UnescapedDollar
    | UnterminatedVariable
    | Undefined(key: string)
    | UndefinedNested(rawKey: string, key: string)

  type Interpolated = Result<string, Failure>

  /** An environment with the two flags that every call passes along unchanged.
      `external` stands for the process environment behind getenv. */
  datatype Scope = Scope(defines: map<string, string>, external: map<string, string>,
                         preferExternal: bool, allowUndefined: bool)
  {
    function External(key: string): Option<string> {
      var k := CString(key);
      if k in external then Some(external[k]) else None
    }

    function Internal(key: string): Option<string> {
      if key in defines then Some(defines[key]) else None
    }

    function Get(key: string): Option<string> {
      if preferExternal then
        if External(key).Some? then External(key) else Internal(key)
      else
        if Internal(key).Some? then Internal(key) else External(key)
    }
  }

  /** What a C string function sees of `s`: everything before the first NUL. */
  function CString(s: string): string {
    if s == "" || s[0] == '\0' then "" else [s[0]] + CString(s[1..])
  }

  /** `substr(start, end - start)` on unsigned sizes: when `end < start` the count wraps around
      to a huge number and the rest of the string is returned. */
  function Slice(s: string, start: nat, end: nat): string
    requires start <= |s|
  {
    if start <= end <= |s| then s[start..end] else s[start..]
  }

  /** The index of the first dash, or `|s|` when there is none. */
  function FirstDash(s: string): (i: nat)
    ensures i <= |s| && '-' !in s[..i] && (i < |s| ==> s[i] == '-')
  {
    if s == "" || s[0] == '-' then 0
    else
      var i := FirstDash(s[1..]);
      assert s[..i + 1] == [s[0]] + s[1..][..i];
      i + 1
  }

  // ----- The meaning of a string: cut it into pieces, then evaluate them -----

  datatype Pieces =
    | End(error: Option<Failure>)
    | Text(text: string, next: Pieces)
    | Variable(body: string, next: Pieces)

  /** Every variable body is shorter than `n`. */
  predicate Below(ps: Pieces, n: nat) {
    match ps
    case End(_) => true
    case Text(_, next) => Below(next, n)
    case Variable(body, next) => |body| < n && Below(next, n)
  }

  /** `pending` is the text passed since the last piece.  A variable's body is what followed
      its opening `${`; but a `$$` inside the braces cuts the text there, and when that leaves
      less than two characters, the wrapped substring count takes all the rest of the string. */
  function Lex(rest: string, pending: string, depth: nat): (ps: Pieces)
    requires depth > 0 ==> pending != ""
    ensures forall n :: |pending| + |rest| <= n ==> Below(ps, n)
    decreases |rest|
  {
    if rest == "" then
      if depth != 0 then End(Some(UnterminatedVariable)) else Text(pending, End(None))
    else if rest[0] == '$' then
      if |rest| == 1 then End(Some(UnterminatedDollar))
      else if rest[1] == '$' then Text(pending, Lex(rest[2..], "$", depth))
      else if rest[1] != '{' then End(Some(UnescapedDollar))
      else if depth == 0 then Text(pending, Lex(rest[2..], "${", 1))
      else Lex(rest[2..], pending + "${", depth + 1)
    else if rest[0] == '}' && depth == 1 then
      Variable(if |pending| >= 2 then pending[2..] else rest[1..], Lex(rest[1..], "", 0))
    else
      Lex(rest[1..], pending + [rest[0]], if rest[0] == '}' && depth > 1 then depth - 1 else depth)
  }

  function Prepend(prefix: string, r: Interpolated): Interpolated {
    match r
    case Ok(text) => Ok(prefix + text)
    case Err(_) => r
  }

  /** The first failure from the left, or both texts in order. */
  function Then(first: Interpolated, rest: Interpolated): Interpolated {
    if first.Err? then first else Prepend(first.value, rest)
  }

  function Join(e: Scope, ps: Pieces, ghost n: nat): Interpolated
    requires Below(ps, n)
    decreases n, 0, ps
  {
    match ps
    case End(None) => Ok("")
    case End(Some(f)) => Err(f)
    case Text(text, next) => Prepend(text, Join(e, next, n))
    case Variable(body, next) => Then(Evaluate(e, body), Join(e, next, n))
  }

  function Interpolate(e: Scope, s: string): Interpolated
    decreases |s|, 1
  {
    Join(e, Lex(s, "", 0), |s|)
  }

  /** What a variable stands for, given what its key and its alternative come out as.  The
      alternative, failing or not, counts only where the key has no value. */
  function Chosen(e: Scope, rawKey: string, key: Interpolated, alt: Option<Interpolated>): Interpolated {
    if key.Err? then key
    else if e.Get(key.value).Some? then Ok(e.Get(key.value).value)
    else if alt.Some? then alt.value
    else if e.allowUndefined then Ok("")
    else if rawKey == key.value then Err(Undefined(key.value))
    else Err(UndefinedNested(rawKey, key.value))
  }

  /** The key is what stands before the first dash, the alternative what stands behind it. */
  function Evaluate(e: Scope, s: string): Interpolated
    decreases |s|, 2
  {
    var pos := FirstDash(s);
    Chosen(e, s[..pos], Interpolate(e, s[..pos]),
           if pos < |s| then Some(Interpolate(e, s[pos + 1..])) else None)
  }

  // ----- The program -----

  /** One step of `Lex` in terms of the indices the program keeps: at a dollar, ... */
  lemma LexDollarAt(s: string, pos: nat, start: nat, depth: nat)
    requires start <= pos < |s| && (depth > 0 ==> start < pos) && s[pos] == '$'
    ensures Lex(s[pos..], s[start..pos], depth)
         == if pos + 1 == |s| then End(Some(UnterminatedDollar))
            else if s[pos + 1] == '$' then Text(s[start..pos], Lex(s[pos + 2..], s[pos + 1..pos + 2], depth))
            else if s[pos + 1] != '{' then End(Some(UnescapedDollar))
            else if depth == 0 then Text(s[start..pos], Lex(s[pos + 2..], s[pos..pos + 2], 1))
            else Lex(s[pos + 2..], s[start..pos + 2], depth + 1)
  {
    var rest, pending := s[pos..], s[start..pos];
    if pos + 1 < |s| {
      assert rest[2..] == s[pos + 2..] && rest[1] == s[pos + 1];
      if s[pos + 1] == '$' {
        assert s[pos + 1..pos + 2] == "$";
      } else if s[pos + 1] == '{' {
        assert s[pos..pos + 2] == "${";
        assert pending + "${" == s[start..pos + 2];
      }
    }
  }

  /** ... at the brace that closes a variable, ... */
  lemma LexCloseAt(s: string, pos: nat, start: nat)
    requires start < pos < |s| && s[pos] == '}'
    ensures Lex(s[pos..], s[start..pos], 1)
         == Variable(Slice(s, start + 2, pos), Lex(s[pos + 1..], s[pos + 1..pos + 1], 0))
  {
    var rest, pending := s[pos..], s[start..pos];
    assert rest[1..] == s[pos + 1..] && s[pos + 1..pos + 1] == "";
    if |pending| >= 2 {
      assert pending[2..] == s[start + 2..pos];
    } else {
      assert Slice(s, start + 2, pos) == rest[1..];
    }
  }

  /** ... and at every other character. */
  lemma LexElseAt(s: string, pos: nat, start: nat, depth: nat)
    requires start <= pos < |s| && (depth > 0 ==> start < pos)
    requires s[pos] != '$' && !(s[pos] == '}' && depth == 1)
    ensures Lex(s[pos..], s[start..pos], depth)
         == Lex(s[pos + 1..], s[start..pos + 1], if s[pos] == '}' && depth > 1 then depth - 1 else depth)
  {
    var rest, pending := s[pos..], s[start..pos];
    assert rest[1..] == s[pos + 1..] && pending + [s[pos]] == s[start..pos + 1];
  }

  lemma JoinText(e: Scope, output: string, text: string, next: Pieces, n: nat)
    requires Below(next, n)
    ensures Prepend(output, Join(e, Text(text, next), n)) == Prepend(output + text, Join(e, next, n))
  {
    PrependTwice(output, text, Join(e, next, n));
  }

  lemma JoinValue(e: Scope, output: string, body: string, next: Pieces, n: nat)
    requires Below(Variable(body, next), n)
    ensures Prepend(output, Join(e, Variable(body, next), n))
         == var r := Evaluate(e, body);
            if r.Err? then r else Prepend(output + r.value, Join(e, next, n))
  {
    var r := Evaluate(e, body);
    if r.Ok? {
      PrependTwice(output, r.value, Join(e, next, n));
    }
  }

  /** Where the scan of `s` is that has come to `pos`: the pieces still to come, behind the output
      so far, make the whole. */
  ghost predicate Scanning(e: Scope, s: string, pos: nat, start: nat, depth: nat, output: string, next: Pieces, whole: Interpolated)
  {
    && start <= pos <= |s| && (depth > 0 ==> start < pos)
    && next == Lex(s[pos..], s[start..pos], depth) && Below(next, |s|)
    && Prepend(output, Join(e, next, |s|)) == whole
  }

  lemma ScanBegins(e: Scope, s: string)
    ensures Scanning(e, s, 0, 0, 0, "", Lex(s, "", 0), Interpolate(e, s))
  {
    assert s[0..] == s && s[0..0] == "";
    PrependNothing(Interpolate(e, s));
  }

  lemma ScanBadDollar(e: Scope, s: string, pos: nat, start: nat, depth: nat, output: string, next: Pieces, whole: Interpolated)
    requires Scanning(e, s, pos, start, depth, output, next, whole) && pos < |s| && s[pos] == '$'
    ensures pos + 1 == |s| ==> whole == Err(UnterminatedDollar)
    ensures pos + 1 < |s| && s[pos + 1] != '$' && s[pos + 1] != '{' ==> whole == Err(UnescapedDollar)
  {
    LexDollarAt(s, pos, start, depth);
  }

  lemma ScanEscape(e: Scope, s: string, pos: nat, start: nat, depth: nat, output: string, next: Pieces, whole: Interpolated)
    requires Scanning(e, s, pos, start, depth, output, next, whole)
    requires pos + 1 < |s| && s[pos] == '$' && s[pos + 1] == '$'
    ensures next.Text? && Scanning(e, s, pos + 2, pos + 1, depth, output + Slice(s, start, pos), next.next, whole)
  {
    LexDollarAt(s, pos, start, depth);
    JoinText(e, output, s[start..pos], next.next, |s|);
  }

  lemma ScanOpen(e: Scope, s: string, pos: nat, start: nat, depth: nat, output: string, next: Pieces, whole: Interpolated)
    requires Scanning(e, s, pos, start, depth, output, next, whole)
    requires pos + 1 < |s| && s[pos] == '$' && s[pos + 1] == '{'
    ensures depth == 0 ==> next.Text? && Scanning(e, s, pos + 2, pos, 1, output + Slice(s, start, pos), next.next, whole)
    ensures depth > 0 ==> Scanning(e, s, pos + 2, start, depth + 1, output, next, whole)
  {
    LexDollarAt(s, pos, start, depth);
    if depth == 0 {
      JoinText(e, output, s[start..pos], next.next, |s|);
    }
  }

  lemma ScanClose(e: Scope, s: string, pos: nat, start: nat, output: string, next: Pieces, whole: Interpolated)
    requires Scanning(e, s, pos, start, 1, output, next, whole) && pos < |s| && s[pos] == '}'
    ensures next.Variable? && start + 2 <= |s| && next.body == Slice(s, start + 2, pos) && |next.body| < |s|
    ensures var r := Evaluate(e, next.body);
      if r.Err? then whole == r else Scanning(e, s, pos + 1, pos + 1, 0, output + r.value, next.next, whole)
  {
    LexCloseAt(s, pos, start);
    JoinValue(e, output, next.body, next.next, |s|);
  }

  lemma ScanElse(e: Scope, s: string, pos: nat, start: nat, depth: nat, output: string, next: Pieces, whole: Interpolated)
    requires Scanning(e, s, pos, start, depth, output, next, whole) && pos < |s|
    requires s[pos] != '$' && !(s[pos] == '}' && depth == 1)
    ensures Scanning(e, s, pos + 1, start, if s[pos] == '}' && depth > 1 then depth - 1 else depth, output, next, whole)
  {
    LexElseAt(s, pos, start, depth);
  }

  lemma ScanEnds(e: Scope, s: string, start: nat, depth: nat, output: string, next: Pieces, whole: Interpolated)
    requires Scanning(e, s, |s|, start, depth, output, next, whole)
    ensures depth != 0 ==> whole == Err(UnterminatedVariable)
    ensures depth == 0 ==> whole == Ok(if start != |s| then output + Slice(s, start, |s|) else output)
  {
    assert s[|s|..] == "" && s[start..|s|] == s[start..];
    if depth == 0 {
      JoinText(e, output, s[start..], End(None), |s|);
      assert output + s[start..] + "" == output + s[start..];
      assert start == |s| ==> output + s[start..] == output;
    }
  }

  method InterpolateLoop(e: Scope, s: string) returns (r: Interpolated)
    ensures r == Interpolate(e, s)
    decreases |s|, 0
  {
    var n := |s|;
    var output, start, pos, depth := "", 0, 0, 0;
    ghost var next, whole := Lex(s, "", 0), Interpolate(e, s);
    ScanBegins(e, s);
    while pos != n
      invariant pos <= n && Scanning(e, s, pos, start, depth, output, next, whole)
      decreases n - pos
    {
      if s[pos] == '$' {
        ScanBadDollar(e, s, pos, start, depth, output, next, whole);
        if pos + 1 == n {
          return Err(UnterminatedDollar);
        }
        if s[pos + 1] == '$' {
          ScanEscape(e, s, pos, start, depth, output, next, whole);
          next := next.next;
          output := output + Slice(s, start, pos);
          start := pos + 1;
        } else if s[pos + 1] == '{' {
          ScanOpen(e, s, pos, start, depth, output, next, whole);
          if depth == 0 {
            next := next.next;
            output := output + Slice(s, start, pos);
            start := pos;
          }
          depth := depth + 1;
        } else {
          return Err(UnescapedDollar);
        }
        pos := pos + 1;
      } else if s[pos] == '}' {
        if depth == 1 {
          ScanClose(e, s, pos, start, output, next, whole);
        } else {
          ScanElse(e, s, pos, start, depth, output, next, whole);
        }
        if depth > 0 {
          depth := depth - 1;
          if depth == 0 {
            var value := EvaluateCall(e, Slice(s, start + 2, pos));
            next := next.next;
            if value.Err? {
              return value;
            }
            output := output + value.value;
            start := pos + 1;
          }
        }
      } else {
        ScanElse(e, s, pos, start, depth, output, next, whole);
      }
      pos := pos + 1;
    }
    ScanEnds(e, s, start, depth, output, next, whole);
    if depth != 0 {
      return Err(UnterminatedVariable);
    }
    if start != pos {
      output := output + Slice(s, start, pos);
    }
    return Ok(output);
  }

  method EvaluateCall(e: Scope, s: string) returns (r: Interpolated)
    ensures r == Evaluate(e, s)
    decreases |s|, 1
  {
    var pos := FirstDash(s);
    var rawKey := s[..pos];
    var key := InterpolateLoop(e, rawKey);
    if key.Err? {
      return key;
    }
    var value := e.Get(key.value);
    if value.Some? {
      return Ok(value.value);
    } else if pos < |s| {
      r := InterpolateLoop(e, s[pos + 1..]);
    } else if e.allowUndefined {
      return Ok("");
    } else if rawKey == key.value {
      return Err(Undefined(key.value));
    } else {
      return Err(UndefinedNested(rawKey, key.value));
    }
  }

  lemma PrependTwice(a: string, b: string, r: Interpolated)
    ensures Prepend(a, Prepend(b, r)) == Prepend(a + b, r)
  {
    if r.Ok? {
      assert a + (b + r.value) == a + b + r.value;
    }
  }

  lemma PrependNothing(r: Interpolated)
    ensures Prepend("", r) == r
  {
    if r.Ok? {
      assert "" + r.value == r.value;
    }
  }

  // ----- Templates and their compositional meaning -----

  datatype Template =
    | Empty
    | Lit(c: char, rest: Template)
    | Dollar(rest: Template)
    | Var(key: Template, rest: Template)
    | VarOr(key: Template, alt: Template, rest: Template)

  function Print(t: Template): string {
    match t
    case Empty => ""
    case Lit(c, rest) => [c] + Print(rest)
    case Dollar(rest) => "$$" + Print(rest)
    case Var(key, rest) => "${" + Print(key) + "}" + Print(rest)
    case VarOr(key, alt, rest) => "${" + Print(key) + "-" + Print(alt) + "}" + Print(rest)
  }

  /** `$$` only outside braces, no closing brace as text inside braces, no dash in a key. */
  predicate WellFormed(t: Template, nested: bool) {
    match t
    case Empty => true
    case Lit(c, rest) => c != '$' && (nested ==> c != '}') && WellFormed(rest, nested)
    case Dollar(rest) => !nested && WellFormed(rest, nested)
    case Var(key, rest) => WellFormed(key, true) && '-' !in Print(key) && WellFormed(rest, nested)
    case VarOr(key, alt, rest) =>
      WellFormed(key, true) && '-' !in Print(key) && WellFormed(alt, true) && WellFormed(rest, nested)
  }

  /** As text, the template keeps the braces around it in place: no `$` and no closing brace
      among its characters, inner variables included. */
  predicate Braced(t: Template) {
    match t
    case Empty => true
    case Lit(c, rest) => c != '$' && c != '}' && Braced(rest)
    case Dollar(_) => false
    case Var(key, rest) => Braced(key) && Braced(rest)
    case VarOr(key, alt, rest) => Braced(key) && Braced(alt) && Braced(rest)
  }

  /** The meaning of a template: values are substituted as they are, left to right. */
  function Meaning(e: Scope, t: Template): Interpolated {
    match t
    case Empty => Ok("")
    case Lit(c, rest) => Prepend([c], Meaning(e, rest))
    case Dollar(rest) => Prepend("$", Meaning(e, rest))
    case Var(key, rest) => Then(Chosen(e, Print(key), Meaning(e, key), None), Meaning(e, rest))
    case VarOr(key, alt, rest) =>
      Then(Chosen(e, Print(key), Meaning(e, key), Some(Meaning(e, alt))), Meaning(e, rest))
  }

  lemma {:induction false} NestedIsWellFormed(t: Template)
    requires WellFormed(t, true)
    ensures WellFormed(t, false)
  {
    match t
    case Empty =>
    case Lit(_, rest) => NestedIsWellFormed(rest);
    case Dollar(_) =>
    case Var(_, rest) => NestedIsWellFormed(rest);
    case VarOr(_, _, rest) => NestedIsWellFormed(rest);
  }

  lemma {:induction false} WellFormedIsBraced(t: Template)
    requires WellFormed(t, true)
    ensures Braced(t)
  {
    match t
    case Empty =>
    case Lit(_, rest) => WellFormedIsBraced(rest);
    case Dollar(_) =>
    case Var(key, rest) =>
      WellFormedIsBraced(key);
      WellFormedIsBraced(rest);
    case VarOr(key, alt, rest) =>
      WellFormedIsBraced(key);
      WellFormedIsBraced(alt);
      WellFormedIsBraced(rest);
  }

  lemma LexOne(x: char, s: string, pending: string, depth: nat)
    requires depth > 0 ==> pending != ""
    requires x != '$' && (depth == 1 ==> x != '}')
    ensures Lex([x] + s, pending, depth)
         == Lex(s, pending + [x], if x == '}' && depth > 1 then depth - 1 else depth)
  {
    assert ([x] + s)[1..] == s;
  }

  lemma LexOpening(s: string, pending: string, depth: nat)
    requires depth > 0 && pending != ""
    ensures Lex("${" + s, pending, depth) == Lex(s, pending + "${", depth + 1)
  {
    assert ("${" + s)[2..] == s;
  }

  /** Inside braces a whole braced template is just more pending text. */
  lemma {:induction false} LexNested(t: Template, s: string, pending: string, depth: nat)
    requires Braced(t) && depth > 0 && pending != ""
    ensures Lex(Print(t) + s, pending, depth) == Lex(s, pending + Print(t), depth)
    decreases t, 1
  {
    match t
    case Empty =>
      assert "" + s == s && pending + "" == pending;
    case Dollar(_) =>
    case Lit(x, rest) =>
      assert Print(t) + s == [x] + (Print(rest) + s);
      LexOne(x, Print(rest) + s, pending, depth);
      LexNested(rest, s, pending + [x], depth);
      assert pending + [x] + Print(rest) == pending + Print(t);
    case Var(key, rest) =>
      Regroup("${", Print(key), "}", Print(rest), s, pending);
      LexOpening(Print(key) + ("}" + (Print(rest) + s)), pending, depth);
      LexNested(key, "}" + (Print(rest) + s), pending + "${", depth + 1);
      LexClosing(rest, s, pending + "${" + Print(key), depth);
    case VarOr(_, _, _) =>
      LexVarOr(t, s, pending, depth);
  }

  lemma Regroup(a: string, b: string, c: string, d: string, s: string, p: string)
    ensures a + b + c + d + s == a + (b + (c + (d + s)))
    ensures p + (a + b + c + d) == p + a + b + c + d
  {
  }

  lemma {:induction false} LexVarOr(t: Template, s: string, pending: string, depth: nat)
    requires t.VarOr? && Braced(t) && depth > 0 && pending != ""
    ensures Lex(Print(t) + s, pending, depth) == Lex(s, pending + Print(t), depth)
    decreases t, 0
  {
    var key, alt, rest := Print(t.key), Print(t.alt), Print(t.rest);
    var tail := "}" + (rest + s);
    RegroupOr("${", key, "-", alt, "}", rest, s, pending);
    LexOpening(key + ("-" + (alt + tail)), pending, depth);
    LexNested(t.key, "-" + (alt + tail), pending + "${", depth + 1);
    LexAlternative(t.alt, tail, pending + "${" + key, depth + 1);
    LexClosing(t.rest, s, pending + "${" + key + "-" + alt, depth);
  }

  lemma RegroupOr(a: string, b: string, c: string, d: string, x: string, y: string, s: string, p: string)
    ensures a + b + c + d + x + y + s == a + (b + (c + (d + (x + (y + s)))))
    ensures p + (a + b + c + d + x + y) == p + a + b + c + d + x + y
  {
  }

  lemma {:induction false} LexClosing(rest: Template, s: string, pending: string, depth: nat)
    requires Braced(rest) && depth > 0 && pending != ""
    ensures Lex("}" + (Print(rest) + s), pending, depth + 1) == Lex(s, pending + "}" + Print(rest), depth)
    decreases rest, 2
  {
    LexOne('}', Print(rest) + s, pending, depth + 1);
    LexNested(rest, s, pending + "}", depth);
  }

  lemma {:induction false} LexAlternative(alt: Template, s: string, pending: string, depth: nat)
    requires Braced(alt) && depth > 0 && pending != ""
    ensures Lex("-" + (Print(alt) + s), pending, depth) == Lex(s, pending + "-" + Print(alt), depth)
    decreases alt, 2
  {
    LexOne('-', Print(alt) + s, pending, depth);
    LexNested(alt, s, pending + "-", depth);
  }

  lemma LexEnter(s: string, pending: string)
    ensures Lex("${" + s, pending, 0) == Text(pending, Lex(s, "${", 1))
  {
    assert ("${" + s)[2..] == s;
  }

  lemma LexLeave(body: string, s: string)
    ensures Lex("}" + s, "${" + body, 1) == Variable(body, Lex(s, "", 0))
  {
    assert ("}" + s)[1..] == s && ("${" + body)[2..] == body;
  }

  lemma PrintVariable(t: Template)
    requires t.Var? || t.VarOr?
    ensures Print(t) == "${" + (Body(t) + ("}" + Print(t.rest)))
  {
    if t.Var? {
      RegroupAround(Print(t.key), Print(t.rest));
    } else {
      RegroupBody(Print(t.key), Print(t.alt), "}" + Print(t.rest));
      RegroupOr("${", Print(t.key), "-", Print(t.alt), "}", Print(t.rest), "", "");
    }
  }

  lemma RegroupAround(body: string, rest: string)
    ensures "${" + body + "}" + rest == "${" + (body + ("}" + rest))
  {
  }

  /** The pieces of a printed template that starts with a variable. */
  lemma {:induction false} LexVariable(t: Template, pending: string)
    requires (t.Var? || t.VarOr?) && Braced(t.key) && (t.VarOr? ==> Braced(t.alt))
    ensures Lex(Print(t), pending, 0) == Text(pending, Variable(Body(t), Lex(Print(t.rest), "", 0)))
  {
    var body, tail := Body(t), "}" + Print(t.rest);
    PrintVariable(t);
    LexEnter(body + tail, pending);
    if t.Var? {
      LexNested(t.key, tail, "${", 1);
    } else {
      LexBody(t, tail);
    }
    LexLeave(body, Print(t.rest));
  }

  lemma {:induction false} LexBody(t: Template, tail: string)
    requires t.VarOr? && Braced(t.key) && Braced(t.alt)
    ensures Lex(Body(t) + tail, "${", 1) == Lex(tail, "${" + Body(t), 1)
  {
    var key, alt := Print(t.key), Print(t.alt);
    RegroupBody(key, alt, tail);
    LexNested(t.key, "-" + (alt + tail), "${", 1);
    LexAlternative(t.alt, tail, "${" + key, 1);
  }

  lemma RegroupBody(key: string, alt: string, tail: string)
    ensures key + "-" + alt + tail == key + ("-" + (alt + tail))
    ensures "${" + key + "-" + alt == "${" + (key + "-" + alt)
  {
  }

  function Body(t: Template): string
    requires t.Var? || t.VarOr?
  {
    if t.Var? then Print(t.key) else Print(t.key) + "-" + Print(t.alt)
  }

  lemma {:induction false} FirstDashAfter(a: string, b: string)
    requires '-' !in a
    ensures FirstDash(a + b) == |a| + FirstDash(b)
  {
    if a == "" {
      assert a + b == b;
    } else {
      assert (a + b)[1..] == a[1..] + b;
      FirstDashAfter(a[1..], b);
    }
  }

  lemma EvaluateKey(e: Scope, key: string)
    requires '-' !in key
    ensures Evaluate(e, key) == Chosen(e, key, Interpolate(e, key), None)
  {
    FirstDashAfter(key, "");
    assert key + "" == key && key[..|key|] == key;
  }

  lemma EvaluateKeyOr(e: Scope, key: string, alt: string)
    requires '-' !in key
    ensures Evaluate(e, key + "-" + alt) == Chosen(e, key, Interpolate(e, key), Some(Interpolate(e, alt)))
  {
    var s := key + "-" + alt;
    FirstDashAfter(key, "-" + alt);
    assert FirstDash("-" + alt) == 0;
    assert key + ("-" + alt) == s;
    assert s[..|key|] == key && s[|key| + 1..] == alt;
  }

  lemma {:induction false} EvaluateBody(e: Scope, t: Template)
    requires (t.Var? || t.VarOr?) && WellFormed(t, false)
    ensures Evaluate(e, Body(t))
         == Chosen(e, Print(t.key), Meaning(e, t.key), if t.Var? then None else Some(Meaning(e, t.alt)))
    decreases t, 0
  {
    NestedIsWellFormed(t.key);
    TemplateTheorem(e, t.key);
    if t.Var? {
      EvaluateKey(e, Print(t.key));
    } else {
      NestedIsWellFormed(t.alt);
      TemplateTheorem(e, t.alt);
      EvaluateKeyOr(e, Print(t.key), Print(t.alt));
    }
  }

  /** Text already passed comes first, then the meaning of the template. */
  lemma {:induction false} JoinMeaning(e: Scope, t: Template, pending: string, n: nat)
    requires WellFormed(t, false) && |pending| + |Print(t)| <= n
    ensures Join(e, Lex(Print(t), pending, 0), n) == Prepend(pending, Meaning(e, t))
    decreases t, 2
  {
    match t
    case Empty =>
    case Lit(x, rest) =>
      LexOne(x, Print(rest), pending, 0);
      JoinMeaning(e, rest, pending + [x], n);
      PrependTwice(pending, [x], Meaning(e, rest));
    case Dollar(rest) =>
      assert Print(t)[2..] == Print(rest);
      JoinMeaning(e, rest, "$", n);
    case Var(_, rest) =>
      JoinVariable(e, t, pending, n);
    case VarOr(_, _, rest) =>
      JoinVariable(e, t, pending, n);
  }

  lemma {:induction false} JoinVariable(e: Scope, t: Template, pending: string, n: nat)
    requires (t.Var? || t.VarOr?) && WellFormed(t, false) && |pending| + |Print(t)| <= n
    ensures Join(e, Lex(Print(t), pending, 0), n) == Prepend(pending, Meaning(e, t))
    decreases t, 1
  {
    WellFormedIsBraced(t.key);
    if t.VarOr? {
      WellFormedIsBraced(t.alt);
    }
    LexVariable(t, pending);
    JoinMeaning(e, t.rest, "", n);
    PrependNothing(Meaning(e, t.rest));
    EvaluateBody(e, t);
  }

  /** Main result: interpolating a printed template gives the template's meaning, including
      which variable is reported as undefined. */
  lemma {:induction false} TemplateTheorem(e: Scope, t: Template)
    requires WellFormed(t, false)
    ensures Interpolate(e, Print(t)) == Meaning(e, t)
    decreases t, 3
  {
    JoinMeaning(e, t, "", |Print(t)|);
    PrependNothing(Meaning(e, t));
  }

  // ----- Escaping -----

  /** `s` with every `$` doubled. */
  function Escape(s: string): string {
    if s == "" then "" else (if s[0] == '$' then "$$" else [s[0]]) + Escape(s[1..])
  }

  function Verbatim(s: string): (t: Template)
    ensures WellFormed(t, false) && Print(t) == Escape(s)
  {
    if s == "" then Empty
    else if s[0] == '$' then Dollar(Verbatim(s[1..]))
    else Lit(s[0], Verbatim(s[1..]))
  }

  lemma {:induction false} VerbatimMeaning(e: Scope, s: string)
    ensures Meaning(e, Verbatim(s)) == Ok(s)
  {
    if s != "" {
      VerbatimMeaning(e, s[1..]);
      assert [s[0]] + s[1..] == s;
    }
  }

  /** Interpolation undoes escaping, for every string and every environment. */
  lemma EscapeRoundTrip(e: Scope, s: string)
    ensures Interpolate(e, Escape(s)) == Ok(s)
  {
    TemplateTheorem(e, Verbatim(s));
    VerbatimMeaning(e, s);
  }

  // ----- Tolerating undefined variables -----

  /** Success without undefined variables does not depend on whether they are tolerated. */
  lemma {:induction false} TolerantAgrees(e: Scope, s: string)
    requires Interpolate(e.(allowUndefined := false), s).Ok?
    ensures Interpolate(e.(allowUndefined := true), s) == Interpolate(e.(allowUndefined := false), s)
    decreases |s|, 1
  {
    TolerantJoin(e, Lex(s, "", 0), |s|);
  }

  lemma {:induction false} TolerantJoin(e: Scope, ps: Pieces, n: nat)
    requires Below(ps, n) && Join(e.(allowUndefined := false), ps, n).Ok?
    ensures Join(e.(allowUndefined := true), ps, n) == Join(e.(allowUndefined := false), ps, n)
    decreases n, 0, ps
  {
    match ps
    case End(_) =>
    case Text(_, next) => TolerantJoin(e, next, n);
    case Variable(body, next) =>
      TolerantEvaluate(e, body);
      TolerantJoin(e, next, n);
  }

  lemma {:induction false} TolerantEvaluate(e: Scope, s: string)
    requires Evaluate(e.(allowUndefined := false), s).Ok?
    ensures Evaluate(e.(allowUndefined := true), s) == Evaluate(e.(allowUndefined := false), s)
    decreases |s|, 2
  {
    var pos := FirstDash(s);
    var strict, tolerant := e.(allowUndefined := false), e.(allowUndefined := true);
    TolerantAgrees(e, s[..pos]);
    var key := Interpolate(strict, s[..pos]).value;
    assert strict.Get(key) == tolerant.Get(key) == e.Get(key);
    if e.Get(key).None? && pos < |s| {
      TolerantAgrees(e, s[pos + 1..]);
    }
  }

  // ----- Where templates stop being compositional -----

  /** How many braces are open after `s`, when `depth` were open before it. */
  function OpenBraces(s: string, depth: nat): nat
    decreases |s|
  {
    if s == "" then depth
    else if s[0] == '$' && |s| > 1 then OpenBraces(s[2..], if s[1] == '{' then depth + 1 else depth)
    else OpenBraces(s[1..], if s[0] == '}' && depth > 0 then depth - 1 else depth)
  }

  lemma {:induction false} JoinClosesBraces(e: Scope, rest: string, pending: string, depth: nat, n: nat)
    requires depth > 0 ==> pending != ""
    requires |pending| + |rest| <= n && Join(e, Lex(rest, pending, depth), n).Ok?
    ensures OpenBraces(rest, depth) == 0
    decreases |rest|
  {
    if rest == "" {
    } else if rest[0] == '$' {
      if |rest| > 1 && rest[1] == '$' {
        JoinClosesBraces(e, rest[2..], "$", depth, n);
      } else if |rest| > 1 && rest[1] == '{' {
        JoinClosesBraces(e, rest[2..], if depth == 0 then "${" else pending + "${", depth + 1, n);
      }
    } else if rest[0] == '}' && depth == 1 {
      JoinClosesBraces(e, rest[1..], "", 0, n);
    } else {
      JoinClosesBraces(e, rest[1..], pending + [rest[0]],
                       if rest[0] == '}' && depth > 1 then depth - 1 else depth, n);
    }
  }

  /** A string that leaves a brace open never evaluates. */
  lemma OpenBraceFails(e: Scope, s: string)
    requires OpenBraces(s, 0) > 0
    ensures Interpolate(e, s).Err?
  {
    if Interpolate(e, s).Ok? {
      JoinClosesBraces(e, s, "", 0, |s|);
    }
  }

  /** A dash counts as the separator even inside a nested key, so a variable whose first dash
      is inside inner braces fails whatever the environment holds. */
  lemma NestedDashFails(e: Scope, s: string)
    requires OpenBraces(s[..FirstDash(s)], 0) > 0
    ensures Evaluate(e, s).Err?
  {
    OpenBraceFails(e, s[..FirstDash(s)]);
  }

  /** Text inside braces in which every `$` opens a variable and no brace closes but inner ones,
      when `depth` of them are open before it. */
  predicate Held(s: string, depth: nat)
    decreases |s|
  {
    if s == "" then true
    else if s[0] == '$' then |s| > 1 && s[1] == '{' && Held(s[2..], depth + 1)
    else if s[0] == '}' then depth > 0 && Held(s[1..], depth - 1)
    else Held(s[1..], depth)
  }

  /** Such text stays pending. */
  lemma {:induction false} LexHeld(text: string, s: string, pending: string, depth: nat)
    requires Held(text, depth) && pending != ""
    ensures Lex(text + s, pending, depth + 1) == Lex(s, pending + text, OpenBraces(text, depth) + 1)
    decreases |text|
  {
    if text == "" {
      assert text + s == s && pending + text == pending;
    } else if text[0] == '$' {
      assert text == "${" + text[2..];
      assert text + s == "${" + (text[2..] + s);
      LexOpening(text[2..] + s, pending, depth + 1);
      LexHeld(text[2..], s, pending + "${", depth + 1);
      assert pending + "${" + text[2..] == pending + text;
    } else {
      assert text + s == [text[0]] + (text[1..] + s);
      LexOne(text[0], text[1..] + s, pending, depth + 1);
      LexHeld(text[1..], s, pending + [text[0]], if text[0] == '}' then depth - 1 else depth);
      assert pending + [text[0]] + text[1..] == pending + text;
    }
  }

  lemma {:induction false} HeldConcat(a: string, b: string, depth: nat)
    requires Held(a, depth)
    ensures OpenBraces(a + b, depth) == OpenBraces(b, OpenBraces(a, depth))
    ensures Held(a + b, depth) <==> Held(b, OpenBraces(a, depth))
    decreases |a|
  {
    if a == "" {
      assert a + b == b;
    } else if a[0] == '$' {
      assert (a + b)[2..] == a[2..] + b;
      HeldConcat(a[2..], b, depth + 1);
    } else {
      assert (a + b)[1..] == a[1..] + b;
      HeldConcat(a[1..], b, if a[0] == '}' then depth - 1 else depth);
    }
  }

  /** A `$$` inside braces: the opening brace and what stood before the `$$` come out as text,
      the character behind it is lost, and the variable is what remains of the body; when
      nothing stands behind the `$$`, the variable is all the rest of the string, which is
      then read once more. */
  lemma {:induction false} DollarInsideBraces(before: string, behind: string, rest: string)
    requires Held(before, 0) && Held(behind, OpenBraces(before, 0))
    requires OpenBraces(behind, OpenBraces(before, 0)) == 0
    ensures Lex("${" + (before + ("$$" + (behind + ("}" + rest)))), "", 0)
         == Text("", Text("${" + before,
                 Variable(if behind == "" then rest else behind[1..], Lex(rest, "", 0))))
  {
    var tail := behind + ("}" + rest);
    DollarInsideCuts(before, tail);
    LexHeld(behind, "}" + rest, "$", OpenBraces(before, 0));
    assert ("}" + rest)[1..] == rest;
    if behind != "" {
      assert ("$" + behind)[2..] == behind[1..];
    }
  }

  /** Whatever comes behind the `$$`. */
  lemma DollarInsideCuts(before: string, tail: string)
    requires Held(before, 0)
    ensures Lex("${" + (before + ("$$" + tail)), "", 0)
         == Text("", Text("${" + before, Lex(tail, "$", OpenBraces(before, 0) + 1)))
  {
    LexEnter(before + ("$$" + tail), "");
    LexHeld(before, "$$" + tail, "${", 0);
    assert ("$$" + tail)[2..] == tail;
  }

  /** So whatever the environment holds, such a variable is never replaced by a value alone:
      a successful result starts with the brace itself. */
  lemma DollarInsideBracesShows(e: Scope, before: string, tail: string)
    requires Held(before, 0)
    ensures var r := Interpolate(e, "${" + (before + ("$$" + tail)));
            r.Ok? ==> "${" + before <= r.value
  {
    DollarInsideCuts(before, tail);
    var s := "${" + (before + ("$$" + tail));
    PrependNothing(Join(e, Text("${" + before, Lex(tail, "$", OpenBraces(before, 0) + 1)), |s|));
  }
}
