/**
 What a variable comes out as, in terms of the two environments alone
 (fable/src/fable/environment.cpp:42-103).
 */
module Lookup {
  import opened Prelude
  import opened Environment

  /** `c` is what the process environment is asked for when `key` is looked up: getenv takes a C
      string, which ends at the first NUL; the defines are asked for the whole key. */
  predicate IsCString(key: string, c: string) {
    '\0' !in c && (c == key || c + "\0" <= key)
  }

  lemma {:induction false} CStringIs(key: string, c: string)
    requires IsCString(key, c)
    ensures CString(key) == c
  {
    if c != "" {
      assert key[0] == c[0];
      assert c != key ==> (c + "\0")[1..] == c[1..] + "\0";
      CStringIs(key[1..], c[1..]);
    } else if key != "" {
      assert (c + "\0")[0] == '\0';
    }
  }

  /** Text without a dollar comes out as it is. */
  lemma {:induction false} PlainText(e: Scope, s: string, pending: string, n: nat)
    requires '$' !in s && |pending| + |s| <= n
    ensures Join(e, Lex(s, pending, 0), n) == Ok(pending + s)
    decreases |s|
  {
    if s == "" {
      assert pending + "" == pending;
    } else {
      PlainText(e, s[1..], pending + [s[0]], n);
      assert pending + [s[0]] + s[1..] == pending + s;
    }
  }

  lemma PlainInterpolates(e: Scope, s: string)
    requires '$' !in s
    ensures Interpolate(e, s) == Ok(s)
  {
    PlainText(e, s, "", |s|);
    assert "" + s == s;
  }

  lemma {:induction false} PlainIsHeld(s: string, depth: nat)
    requires '$' !in s && '}' !in s
    ensures Held(s, depth) && OpenBraces(s, depth) == depth
    decreases |s|
  {
    if s != "" {
      PlainIsHeld(s[1..], depth);
    }
  }

  /** A variable alone is the evaluation of its body. */
  lemma AloneIsEvaluated(e: Scope, body: string)
    requires Held(body, 0) && OpenBraces(body, 0) == 0
    ensures Interpolate(e, "${" + (body + "}")) == Evaluate(e, body)
  {
    var n := |"${" + (body + "}")|;
    LexEnter(body + "}", "");
    LexHeld(body, "}", "${", 0);
    LexLeave(body, "");
    assert "}" + "" == "}";
    var next := Text("", End(None));
    assert "" + "" == "" && Prepend("", Ok("")) == Ok("");
    assert Join(e, End(None), n) == Ok("");
    assert Join(e, next, n) == Ok("");
    var value := Evaluate(e, body);
    assert Then(value, Ok("")) == value by {
      if value.Ok? {
        assert value.value + "" == value.value;
      }
    }
    assert Join(e, Variable(body, next), n) == value;
    PrependNothing(value);
  }

  // ----- A variable without an alternative -----

  /** The body of a variable, dash-free and with its inner variables, comes out as `key`; then the
      preferred environment that has the key gives the value, and the other one is the fallback. */
  lemma VariableIs(e: Scope, body: string, key: string, c: string)
    requires Held(body, 0) && OpenBraces(body, 0) == 0 && '-' !in body
    requires Interpolate(e, body) == Ok(key) && IsCString(key, c)
    ensures var r := Interpolate(e, "${" + (body + "}"));
      && (!e.preferExternal && key in e.defines ==> r == Ok(e.defines[key]))
      && (!e.preferExternal && key !in e.defines && c in e.external ==> r == Ok(e.external[c]))
      && (e.preferExternal && c in e.external ==> r == Ok(e.external[c]))
      && (e.preferExternal && c !in e.external && key in e.defines ==> r == Ok(e.defines[key]))
      && (key !in e.defines && c !in e.external && e.allowUndefined ==> r == Ok(""))
      && (key !in e.defines && c !in e.external && !e.allowUndefined && body == key ==> r == Err(Undefined(key)))
      && (key !in e.defines && c !in e.external && !e.allowUndefined && body != key ==>
            r == Err(UndefinedNested(body, key)))
  {
    AloneIsEvaluated(e, body);
    EvaluateKey(e, body);
    CStringIs(key, c);
  }

  predicate IsPlainKey(k: string) { '$' !in k && '}' !in k && '-' !in k }

  /** The same for a key that is plain text. */
  lemma PlainVariableIs(e: Scope, k: string, c: string)
    requires IsPlainKey(k) && IsCString(k, c)
    ensures var r := Interpolate(e, "${" + (k + "}"));
      && (!e.preferExternal && k in e.defines ==> r == Ok(e.defines[k]))
      && (!e.preferExternal && k !in e.defines && c in e.external ==> r == Ok(e.external[c]))
      && (e.preferExternal && c in e.external ==> r == Ok(e.external[c]))
      && (e.preferExternal && c !in e.external && k in e.defines ==> r == Ok(e.defines[k]))
      && (k !in e.defines && c !in e.external ==> r == if e.allowUndefined then Ok("") else Err(Undefined(k)))
  {
    PlainInterpolates(e, k);
    PlainIsHeld(k, 0);
    VariableIs(e, k, k, c);
  }

  // ----- A variable with an alternative -----

  /** With an alternative that keeps its braces, whatever is in it: the value if there is one, and
      otherwise, tolerant or not, what the alternative comes out as. */
  lemma AlternativeIs(e: Scope, body: string, key: string, c: string, alt: string)
    requires Held(body, 0) && OpenBraces(body, 0) == 0 && '-' !in body
    requires Held(alt, 0) && OpenBraces(alt, 0) == 0
    requires Interpolate(e, body) == Ok(key) && IsCString(key, c)
    ensures var r := Interpolate(e, "${" + (body + "-" + alt + "}"));
      && (key !in e.defines && c !in e.external ==> r == Interpolate(e, alt))
      && (key in e.defines || c in e.external ==> r == Interpolate(e, "${" + (body + "}")))
  {
    HeldWithDash(body, alt);
    AloneIsEvaluated(e, body + "-" + alt);
    AloneIsEvaluated(e, body);
    EvaluateKeyOr(e, body, alt);
    EvaluateKey(e, body);
    CStringIs(key, c);
  }

  lemma HeldWithDash(body: string, alt: string)
    requires Held(body, 0) && OpenBraces(body, 0) == 0 && Held(alt, 0) && OpenBraces(alt, 0) == 0
    ensures Held(body + "-" + alt, 0) && OpenBraces(body + "-" + alt, 0) == 0
  {
    HeldConcat(body, "-" + alt, 0);
    assert ("-" + alt)[1..] == alt;
    assert body + ("-" + alt) == body + "-" + alt;
  }

  // ----- Malformed strings -----

  /** Which exception a malformed string raises, after any text without a dollar: at a dollar that
      nothing follows, ... */
  lemma LoneDollarIs(e: Scope, text: string)
    requires '$' !in text
    ensures Interpolate(e, text + "$") == Err(UnterminatedDollar)
  {
    LexPast(text, "$", "");
  }

  /** ... at one that neither a dollar nor a brace follows, ... */
  lemma StrayDollarIs(e: Scope, text: string, c: char, rest: string)
    requires '$' !in text && c != '$' && c != '{'
    ensures Interpolate(e, text + ("$" + ([c] + rest))) == Err(UnescapedDollar)
  {
    LexPast(text, "$" + ([c] + rest), "");
    assert ("$" + ([c] + rest))[1] == c;
  }

  /** ... and at one whose braces stay open. */
  lemma OpenVariableIs(e: Scope, text: string, body: string)
    requires '$' !in text && Held(body, 0)
    ensures Interpolate(e, text + ("${" + body)) == Err(UnterminatedVariable)
  {
    LexPast(text, "${" + body, "");
    LexEnter(body, "" + text);
    LexHeld(body, "", "${", 0);
    assert body + "" == body;
    var depth := OpenBraces(body, 0) + 1;
    assert Lex("", "${" + body, depth) == End(Some(UnterminatedVariable));
    var s := text + ("${" + body);
    assert Lex(s, "", 0) == Text("" + text, End(Some(UnterminatedVariable)));
    assert Join(e, End(Some(UnterminatedVariable)), |s|) == Err(UnterminatedVariable);
  }

  /** Outside of braces, text without a dollar stays pending. */
  lemma {:induction false} LexPast(text: string, s: string, pending: string)
    requires '$' !in text
    ensures Lex(text + s, pending, 0) == Lex(s, pending + text, 0)
    decreases |text|
  {
    if text == "" {
      assert text + s == s && pending + text == pending;
    } else {
      assert text + s == [text[0]] + (text[1..] + s);
      LexOne(text[0], text[1..] + s, pending, 0);
      LexPast(text[1..], s, pending + [text[0]]);
      assert pending + [text[0]] + text[1..] == pending + text;
    }
  }
}
