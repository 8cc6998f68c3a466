/**
 Routes of the web server: the muxer (oak/include/oak/route_muxer.hpp) and the registrar that
 answers from a buffer of responses (oak/src/oak/registrar.cpp).
 */
module Routes {
  import opened Prelude

  // ----- Paths -----

  /** The pieces between slashes. */
  function Split(s: string): (pieces: seq<string>)
    ensures pieces != []
  {
    if s == "" then [""]
    else
      var rest := Split(s[1..]);
      if s[0] == '/' then [""] + rest else [[s[0]] + rest[0]] + rest[1..]
  }

  /** The names that a sequence of pieces leads to from the root, below `stack`. */
  function Walk(stack: seq<string>, pieces: seq<string>): seq<string>
    decreases |pieces|
  {
    if pieces == [] then stack
    else if pieces[0] == "" || pieces[0] == "." then Walk(stack, pieces[1..])
    else if pieces[0] == ".." then Walk(if stack == [] then [] else stack[..|stack| - 1], pieces[1..])
    else Walk(stack + [pieces[0]], pieces[1..])
  }

  function Join(names: seq<string>): string {
    if names == [] then "" else Join(names[..|names| - 1]) + "/" + names[|names| - 1]
  }

  predicate IsAbsolute(s: string) { s != "" && s[0] == '/' }

  /** `lexically_normal` of an absolute path, as in [fs.path.generic] of ISO C++17. */
  function LexicallyNormal(s: string): string
    requires IsAbsolute(s)
  {
    var pieces := Split(s);
    var names := Walk([], pieces);
    if names == [] then "/"
    else Join(names) + if pieces[|pieces| - 1] in {"", ".", ".."} then "/" else ""
  }

  function Path(names: seq<string>): string { if names == [] then "/" else Join(names) }

  // ----- Normal forms -----

  /** The part before the first '?'. */
  function BeforeQuery(s: string): string {
    if s == "" || s[0] == '?' then "" else [s[0]] + BeforeQuery(s[1..])
  }

  predicate IsTrimmed(c: char) { c in "/. \n\t\r" }

  function Trim(s: string): string {
    if s != "" && IsTrimmed(s[|s| - 1]) then Trim(s[..|s| - 1]) else s
  }

  function Normalize(route: string): string {
    var s := BeforeQuery(route);
    if !IsAbsolute(s) then ""
    else
      var t := Trim(LexicallyNormal(s));
      if t == "" then "/" else t
  }

  /** The names of the normal form of a path with these names. */
  function TrimNames(names: seq<string>): seq<string> {
    if names == [] then []
    else
      var last := Trim(names[|names| - 1]);
      if last == "" then TrimNames(names[..|names| - 1]) else names[..|names| - 1] + [last]
  }

  predicate IsName(name: string) {
    name !in {"", ".", ".."} && '/' !in name && '?' !in name
  }

  predicate AreNames(names: seq<string>) { forall i | 0 <= i < |names| :: IsName(names[i]) }

  lemma {:induction false} TrimIs(s: string)
    ensures Trim(s) <= s && (Trim(s) != "" ==> !IsTrimmed(Trim(s)[|Trim(s)| - 1]))
  {
    if s != "" && IsTrimmed(s[|s| - 1]) {
      TrimIs(s[..|s| - 1]);
    }
  }

  lemma {:induction false} TrimConcat(a: string, b: string)
    ensures Trim(a + b) == if Trim(b) == "" then Trim(a) else a + Trim(b)
    decreases |b|
  {
    if b == "" {
      assert a + b == a;
    } else {
      assert (a + b)[..|a + b| - 1] == a + b[..|b| - 1];
      if IsTrimmed(b[|b| - 1]) {
        TrimConcat(a, b[..|b| - 1]);
      }
    }
  }

  lemma TrimSlash(a: string)
    ensures Trim(a + "/") == Trim(a)
  {
    assert Trim("/") == Trim("") == "";
    TrimConcat(a, "/");
  }

  lemma {:induction false} TrimJoin(names: seq<string>)
    ensures Trim(Join(names)) == Join(TrimNames(names))
  {
    if names != [] {
      var front, last := names[..|names| - 1], names[|names| - 1];
      TrimConcat(Join(front) + "/", last);
      if Trim(last) == "" {
        TrimSlash(Join(front));
        TrimJoin(front);
      } else {
        var trimmed := front + [Trim(last)];
        assert trimmed[..|trimmed| - 1] == front;
      }
    }
  }

  lemma {:induction false} TrimNamesAreNames(names: seq<string>)
    requires AreNames(names)
    ensures AreNames(TrimNames(names))
    ensures TrimNames(TrimNames(names)) == TrimNames(names)
  {
    if names != [] {
      var front, last := names[..|names| - 1], Trim(names[|names| - 1]);
      TrimIs(names[|names| - 1]);
      if last == "" {
        TrimNamesAreNames(front);
      } else {
        assert IsName(last) by {
          assert forall c | c in last :: c in names[|names| - 1];
          assert !IsTrimmed(last[|last| - 1]);
        }
        var trimmed := front + [last];
        assert trimmed[..|trimmed| - 1] == front && Trim(last) == last;
      }
    }
  }

  lemma {:induction false} SplitPieces(s: string)
    ensures forall i | 0 <= i < |Split(s)| :: '/' !in Split(s)[i]
    ensures '?' !in s ==> forall i | 0 <= i < |Split(s)| :: '?' !in Split(s)[i]
  {
    if s != "" {
      SplitPieces(s[1..]);
    }
  }

  lemma {:induction false} WalkNames(stack: seq<string>, pieces: seq<string>)
    requires AreNames(stack)
    requires forall i | 0 <= i < |pieces| :: '/' !in pieces[i] && '?' !in pieces[i]
    ensures AreNames(Walk(stack, pieces))
    decreases |pieces|
  {
    if pieces != [] {
      var rest := pieces[1..];
      if pieces[0] == "" || pieces[0] == "." {
        WalkNames(stack, rest);
      } else if pieces[0] == ".." {
        WalkNames(if stack == [] then [] else stack[..|stack| - 1], rest);
      } else {
        WalkNames(stack + [pieces[0]], rest);
      }
    }
  }

  lemma {:induction false} NoQuery(s: string)
    ensures '?' !in BeforeQuery(s)
    ensures '?' !in s ==> BeforeQuery(s) == s
  {
    if s != "" && s[0] != '?' {
      NoQuery(s[1..]);
    }
  }

  /** The names that the normal form of an absolute route consists of. */
  function NamesOf(route: string): seq<string> {
    TrimNames(Walk([], Split(BeforeQuery(route))))
  }

  lemma TrimNormal(s: string)
    requires IsAbsolute(s)
    ensures Trim(LexicallyNormal(s)) == Join(TrimNames(Walk([], Split(s))))
  {
    var names := Walk([], Split(s));
    TrimJoin(names);
    TrimSlash(Join(names));
    TrimSlash("");
    assert "" + "/" == "/" && Join(names) + "" == Join(names);
  }

  /** A normal form is a list of names none of which is `.` or `..`, ending in a character that
      is not trimmed. */
  lemma NormalizeIs(route: string)
    requires IsAbsolute(route)
    ensures AreNames(NamesOf(route)) && TrimNames(NamesOf(route)) == NamesOf(route)
    ensures Normalize(route) == if NamesOf(route) == [] then "/" else Join(NamesOf(route))
  {
    var s := BeforeQuery(route);
    var pieces := Split(s);
    NoQuery(route);
    SplitPieces(s);
    WalkNames([], pieces);
    TrimNamesAreNames(Walk([], pieces));
    assert IsAbsolute(s);
    TrimNormal(s);
    JoinIsEmpty(NamesOf(route));
  }

  lemma JoinIsEmpty(names: seq<string>)
    ensures Join(names) == "" <==> names == []
  {
  }

  lemma {:induction false} SplitConcat(a: string, b: string)
    requires '/' !in b
    ensures Split(a + "/" + b) == Split(a) + [b]
  {
    if a == "" {
      assert a + "/" + b == "/" + b;
      SplitName(b);
    } else {
      assert (a + "/" + b)[1..] == a[1..] + "/" + b;
      SplitConcat(a[1..], b);
    }
  }

  lemma {:induction false} SplitName(b: string)
    requires '/' !in b
    ensures Split(b) == [b]
  {
    if b != "" {
      SplitName(b[1..]);
      assert [b[0]] + b[1..] == b;
    }
  }

  /** What can stand between slashes, before the query. */
  predicate ArePieces(pieces: seq<string>) { forall i | 0 <= i < |pieces| :: '/' !in pieces[i] && '?' !in pieces[i] }

  lemma {:induction false} SplitJoin(names: seq<string>)
    requires ArePieces(names)
    ensures Split(Join(names)) == [""] + names
    ensures '?' !in Join(names)
  {
    if names != [] {
      var front, last := names[..|names| - 1], names[|names| - 1];
      SplitJoin(front);
      SplitConcat(Join(front), last);
      assert names == front + [last];
    }
  }

  lemma {:induction false} WalkStraight(stack: seq<string>, names: seq<string>)
    requires AreNames(names)
    ensures Walk(stack, names) == stack + names
    decreases |names|
  {
    if names != [] {
      WalkStraight(stack + [names[0]], names[1..]);
    }
  }

  /** The names of a path that consists of names are these. */
  lemma NamesOfJoin(names: seq<string>)
    requires AreNames(names) && TrimNames(names) == names && names != []
    ensures IsAbsolute(Join(names)) && NamesOf(Join(names)) == names
  {
    SplitJoin(names);
    NoQuery(Join(names));
    JoinIsAbsolute(names);
    WalkStraight([], names);
    assert Walk([], [""] + names) == Walk([], names) by {
      assert ([""] + names)[1..] == names;
    }
    assert [] + names == names;
  }

  lemma {:induction false} JoinIsAbsolute(names: seq<string>)
    requires names != []
    ensures IsAbsolute(Join(names))
  {
    if |names| > 1 {
      JoinIsAbsolute(names[..|names| - 1]);
    } else {
      assert Join(names[..0]) == "";
    }
  }

  lemma RootIsNormal()
    ensures Normalize("/") == "/" && Normalize("") == ""
  {
    assert BeforeQuery("/") == ['/'] + BeforeQuery("") == "/";
    assert Split("/") == [""] + Split("") == ["", ""];
    assert Walk([], ["", ""]) == Walk([], [""]) == Walk([], []) == [];
    assert Trim("/") == Trim("") == "";
  }

  /** Normalizing twice is normalizing once. */
  lemma NormalizeIsIdempotent(route: string)
    ensures Normalize(Normalize(route)) == Normalize(route)
  {
    RootIsNormal();
    if IsAbsolute(route) {
      NormalizeIs(route);
      var names := NamesOf(route);
      if names != [] {
        NamesOfJoin(names);
        NormalizeIs(Join(names));
      }
    } else {
      assert !IsAbsolute(BeforeQuery(route));
    }
  }

  /** Two absolute routes have the same normal form exactly if they lead to the same names. */
  lemma SameNormalForm(a: string, b: string)
    requires IsAbsolute(a) && IsAbsolute(b)
    ensures Normalize(a) == Normalize(b) <==> NamesOf(a) == NamesOf(b)
  {
    NormalizeIs(a);
    NormalizeIs(b);
    if Normalize(a) == Normalize(b) {
      RootNames(a);
      RootNames(b);
      if NamesOf(a) != [] && NamesOf(b) != [] {
        NamesOfJoin(NamesOf(a));
        NamesOfJoin(NamesOf(b));
      }
    }
  }

  lemma JoinIsNotRoot(names: seq<string>)
    requires AreNames(names) && names != []
    ensures Join(names) != "/"
  {
    var front, last := names[..|names| - 1], names[|names| - 1];
    assert last != "" && |Join(names)| == |Join(front)| + 1 + |last| > 1;
  }

  lemma RootNames(route: string)
    requires IsAbsolute(route)
    ensures NamesOf(route) != [] ==> Normalize(route) != "/"
  {
    NormalizeIs(route);
    if NamesOf(route) != [] {
      JoinIsNotRoot(NamesOf(route));
    }
  }

  // ----- What normalizing does to a route -----

  lemma {:induction false} WalkConcat(stack: seq<string>, a: seq<string>, b: seq<string>)
    ensures Walk(stack, a + b) == Walk(Walk(stack, a), b)
    decreases |a|
  {
    if a == [] {
      assert a + b == b;
    } else {
      assert (a + b)[1..] == a[1..] + b;
      var next :=
        if a[0] == "" || a[0] == "." then stack
        else if a[0] == ".." then (if stack == [] then [] else stack[..|stack| - 1])
        else stack + [a[0]];
      WalkConcat(next, a[1..], b);
    }
  }

  lemma NamesOfPath(pieces: seq<string>)
    requires ArePieces(pieces)
    ensures IsAbsolute(Path(pieces)) && NamesOf(Path(pieces)) == TrimNames(Walk([], pieces))
  {
    if pieces == [] {
      assert BeforeQuery("/") == ['/'] + BeforeQuery("") == "/";
      assert Split("/") == [""] + Split("") == ["", ""];
      assert Walk([], ["", ""]) == Walk([], [""]) == Walk([], []) == [];
    } else {
      JoinIsAbsolute(pieces);
      SplitJoin(pieces);
      NoQuery(Join(pieces));
      assert ([""] + pieces)[1..] == pieces;
    }
  }

  /** Both ways from the root lead to the same place. */
  lemma SameWalk(a: seq<string>, b: seq<string>)
    requires ArePieces(a) && ArePieces(b) && Walk([], a) == Walk([], b)
    ensures Normalize(Path(a)) == Normalize(Path(b))
  {
    NamesOfPath(a);
    NamesOfPath(b);
    SameNormalForm(Path(a), Path(b));
  }

  lemma WalkThrough(a: seq<string>, b: seq<string>, c: seq<string>)
    ensures Walk([], a + b + c) == Walk(Walk(Walk([], a), b), c)
    ensures Walk([], a + c) == Walk(Walk([], a), c)
  {
    WalkConcat([], a + b, c);
    WalkConcat([], a, b);
    WalkConcat([], a, c);
  }

  lemma WalkUp(stack: seq<string>, name: string)
    requires IsName(name)
    ensures Walk(stack, [name, ".."]) == stack
  {
    assert [name, ".."][1..] == [".."] && [".."][1..] == [];
    assert Walk(stack, [name, ".."]) == Walk(stack + [name], [".."]);
    assert Walk(stack + [name], [".."]) == (stack + [name])[..|stack|];
  }

  /** A name and a `..` behind it cancel, wherever they stand. */
  lemma NormalizeUp(a: seq<string>, name: string, c: seq<string>)
    requires ArePieces(a) && IsName(name) && ArePieces(c)
    ensures Normalize(Path(a + [name, ".."] + c)) == Normalize(Path(a + c))
  {
    WalkThrough(a, [name, ".."], c);
    WalkUp(Walk([], a), name);
    SameWalk(a + [name, ".."] + c, a + c);
  }

  /** A `..` at the root stays there. */
  lemma NormalizeUpAtRoot(c: seq<string>)
    requires ArePieces(c)
    ensures Normalize(Path([".."] + c)) == Normalize(Path(c))
  {
    assert ([".."] + c)[1..] == c;
    SameWalk([".."] + c, c);
  }

  /** A `.`, and a repeated or trailing slash, lead nowhere else. */
  lemma NormalizeStay(a: seq<string>, stay: string, c: seq<string>)
    requires ArePieces(a) && (stay == "." || stay == "") && ArePieces(c)
    ensures Normalize(Path(a + [stay] + c)) == Normalize(Path(a + c))
  {
    WalkThrough(a, [stay], c);
    assert [stay][1..] == [];
    SameWalk(a + [stay] + c, a + c);
  }

  lemma LongerName(name: string, c: char)
    requires IsName(name) && c in {'.', ' ', '\n', '\t', '\r'}
    ensures IsName(name + [c]) && Trim(name + [c]) == Trim(name)
  {
    var longer := name + [c];
    assert longer[..|name|] == name;
    assert longer == ".." ==> name == ".";
  }

  lemma SameLastTrimmed(stack: seq<string>, x: string, y: string)
    requires Trim(x) == Trim(y)
    ensures TrimNames(stack + [x]) == TrimNames(stack + [y])
  {
    assert (stack + [x])[..|stack|] == stack == (stack + [y])[..|stack|];
  }

  lemma WalkToName(a: seq<string>, name: string)
    requires IsName(name)
    ensures Walk([], a + [name]) == Walk([], a) + [name]
  {
    WalkConcat([], a, [name]);
    assert [name][1..] == [];
  }

  /** A trailing dot or white space behind a name is cut off. */
  lemma NormalizeCuts(a: seq<string>, name: string, c: char)
    requires ArePieces(a) && IsName(name) && c in {'.', ' ', '\n', '\t', '\r'}
    ensures Normalize(Path(a + [name + [c]])) == Normalize(Path(a + [name]))
  {
    var longer := name + [c];
    LongerName(name, c);
    WalkToName(a, longer);
    WalkToName(a, name);
    SameLastTrimmed(Walk([], a), longer, name);
    NamesOfPath(a + [longer]);
    NamesOfPath(a + [name]);
    SameNormalForm(Path(a + [longer]), Path(a + [name]));
  }

  /** Everything from the first question mark on is cut off. */
  lemma NormalizeNoQuery(route: string, query: string)
    ensures Normalize(route + "?" + query) == Normalize(route)
  {
    QueryCut(route, query);
  }

  lemma {:induction false} QueryCut(route: string, query: string)
    ensures BeforeQuery(route + "?" + query) == BeforeQuery(route)
  {
    if route == "" {
      assert ("" + "?" + query)[0] == '?';
    } else {
      assert (route + "?" + query)[1..] == route[1..] + "?" + query;
      QueryCut(route[1..], query);
    }
  }

  /** A route that does not start at the root has no normal form. */
  lemma NormalizeRelative(route: string)
    requires route == "" || route[0] != '/'
    ensures Normalize(route) == ""
  {
  }

  /** What these rules leave alone is normal: names, the last one ending in none of these. */
  lemma NormalizeKeeps(names: seq<string>)
    requires AreNames(names)
    requires names != [] ==> var last := names[|names| - 1]; last[|last| - 1] !in {'.', ' ', '\n', '\t', '\r'}
    ensures Normalize(Path(names)) == Path(names)
  {
    RootIsNormal();
    if names != [] {
      var last := names[|names| - 1];
      assert !IsTrimmed(last[|last| - 1]) by {
        assert last[|last| - 1] in last;
      }
      assert names[..|names| - 1] + [last] == names;
      NamesOfJoin(names);
      NormalizeIs(Join(names));
    }
  }

  // ----- Backtracking -----

  function DropName(p: string): string {
    if p != "" && p[|p| - 1] != '/' then DropName(p[..|p| - 1]) else p
  }

  /** `parent_path` of an absolute path without repeated slashes. */
  function ParentPath(p: string): string {
    var d := DropName(p);
    if |d| <= 1 then d else d[..|d| - 1]
  }

  lemma {:induction false} DropNameIsShorter(p: string)
    requires IsAbsolute(p)
    ensures 1 <= |DropName(p)| <= |p| && IsAbsolute(DropName(p))
    ensures |DropName(p)| == |p| ==> p[|p| - 1] == '/'
  {
    if p[|p| - 1] != '/' {
      DropNameIsShorter(p[..|p| - 1]);
    }
  }

  lemma ParentPathIsShorter(p: string)
    requires IsAbsolute(p) && p != "/"
    ensures IsAbsolute(ParentPath(p)) && |ParentPath(p)| < |p|
  {
    DropNameIsShorter(p);
    assert p == [p[0]] + p[1..];
  }

  /** The nearest registered path at or above `p`, or "" if there is none. */
  function Nearest(keys: set<string>, p: string): string
    requires IsAbsolute(p)
    decreases |p|
  {
    if p in keys then p
    else if p == "/" then ""
    else
      ParentPathIsShorter(p);
      Nearest(keys, ParentPath(p))
  }

  lemma {:induction false} DropNameOf(a: string, name: string)
    requires '/' !in name
    ensures DropName(a + "/" + name) == a + "/"
    decreases |name|
  {
    var p := a + "/" + name;
    if name != "" {
      assert p[..|p| - 1] == a + "/" + name[..|name| - 1];
      DropNameOf(a, name[..|name| - 1]);
    } else {
      assert p == a + "/";
    }
  }

  lemma ParentOfPath(names: seq<string>)
    requires AreNames(names) && names != []
    ensures IsAbsolute(Path(names)) && ParentPath(Path(names)) == Path(names[..|names| - 1]) && Path(names) != "/"
  {
    var front := names[..|names| - 1];
    JoinIsAbsolute(names);
    DropNameOf(Join(front), names[|names| - 1]);
    if front == [] {
      assert Join(front) + "/" == "/";
    } else {
      JoinIsAbsolute(front);
    }
  }

  /** Backtracking finds the longest prefix of the names that is registered, if any is. */
  lemma {:induction false} NearestIsLongest(keys: set<string>, names: seq<string>, k: nat)
    requires AreNames(names) && k <= |names|
    requires forall j | k < j <= |names| :: Path(names[..j]) !in keys
    ensures IsAbsolute(Path(names))
    ensures Path(names[..k]) in keys ==> Nearest(keys, Path(names)) == Path(names[..k])
    ensures k == 0 && "/" !in keys ==> Nearest(keys, Path(names)) == ""
  {
    assert names[..|names|] == names;
    if names != [] {
      ParentOfPath(names);
      var front := names[..|names| - 1];
      if k < |names| {
        assert forall j | 0 <= j <= |front| :: front[..j] == names[..j];
        NearestIsLongest(keys, front, k);
      }
    }
  }

  // ----- The muxer -----

  datatype Failure = RouteExists | OutOfRange

  class Muxer<T> {
    var backtrack: bool
    var routes: map<string, T>

    constructor ()
      ensures !backtrack && routes == map[]
    {
      backtrack, routes := false, map[];
    }

    method SetBacktrack(enabled: bool)
      modifies this`backtrack
      ensures backtrack == enabled
    {
      backtrack := enabled;
    }

    /** The value for routes that are not found is kept under the empty key. */
    method SetDefault(value: T)
      modifies this`routes
      ensures routes == old(routes)["" := value]
    {
      routes := routes[""  := value];
    }

    method Has(route: string) returns (r: bool)
      ensures r <==> Normalize(route) in routes
    {
      r := Normalize(route) in routes;
    }

    method Add(route: string, value: T) returns (r: Result<(), Failure>)
      modifies this`routes
      ensures r.Ok? <==> Normalize(route) !in old(routes)
      ensures routes == if r.Ok? then old(routes)[Normalize(route) := value] else old(routes)
    {
      var key := Normalize(route);
      if key in routes {
        return Err(RouteExists);
      }
      routes := routes[key := value];
      return Ok(());
    }

    method Set(route: string, value: T)
      modifies this`routes
      ensures routes == old(routes)[Normalize(route) := value]
    {
      routes := routes[Normalize(route) := value];
    }

    method SetUnsafe(key: string, value: T)
      modifies this`routes
      ensures routes == old(routes)[key := value]
    {
      routes := routes[key := value];
    }

    method GetUnsafe(key: string) returns (r: Result<T, Failure>)
      ensures r == if key in routes then Ok(routes[key]) else Err(OutOfRange)
    {
      if key !in routes {
        return Err(OutOfRange);
      }
      return Ok(routes[key]);
    }

    /** Backtracking from a route that is not absolute ends only where there is a default. */
    method Resolve(route: string) returns (r: string)
      requires backtrack ==> Normalize(route) != "" || "" in routes
      ensures r == Resolved(backtrack, routes.Keys, route)
    {
      var key := Normalize(route);
      if !backtrack {
        return if key in routes then key else "";
      }
      NormalIsAbsolute(route);
      var p := key;
      while p !in routes
        invariant p == "" ==> p in routes && key == ""
        invariant p != "" ==> IsAbsolute(p) && key != "" && Nearest(routes.Keys, p) == Nearest(routes.Keys, key)
        decreases |p|
      {
        if p == "/" {
          return "";
        }
        ParentPathIsShorter(p);
        p := ParentPath(p);
      }
      return p;
    }

    method Get(route: string) returns (r: Result<T, Failure>)
      requires backtrack ==> Normalize(route) != "" || "" in routes
      ensures var key := Resolved(backtrack, routes.Keys, route);
              r == if key in routes then Ok(routes[key]) else Err(OutOfRange)
    {
      var key := Resolve(route);
      r := GetUnsafe(key);
    }
  }

  lemma NormalIsAbsolute(route: string)
    ensures Normalize(route) == "" || IsAbsolute(Normalize(route))
  {
    if IsAbsolute(route) {
      NormalizeIs(route);
      if NamesOf(route) != [] {
        JoinIsAbsolute(NamesOf(route));
      }
    } else {
      assert !IsAbsolute(BeforeQuery(route));
    }
  }

  ghost function Resolved(backtrack: bool, keys: set<string>, route: string): string {
    var key := Normalize(route);
    NormalIsAbsolute(route);
    if !backtrack || key == "" then (if key in keys then key else "")
    else Nearest(keys, key)
  }

  /** Resolving depends only on the names that a route leads to: it finds the registered path
      with most of them, or, without backtracking, with all of them. */
  lemma ResolvedIs(backtrack: bool, keys: set<string>, route: string, k: nat)
    requires IsAbsolute(route)
    requires var names := NamesOf(route);
      k <= |names| && (backtrack || k == |names|) && forall j | k < j <= |names| :: Path(names[..j]) !in keys
    ensures Path(NamesOf(route)[..k]) in keys ==> Resolved(backtrack, keys, route) == Path(NamesOf(route)[..k])
    ensures (k == 0 || !backtrack) && Path(NamesOf(route)[..k]) !in keys ==> Resolved(backtrack, keys, route) == ""
  {
    var names := NamesOf(route);
    NormalizeIs(route);
    assert names[..|names|] == names;
    NearestIsLongest(keys, names, k);
    NormalIsAbsolute(route);
  }

  lemma KeyIsNormal(route: string)
    requires IsAbsolute(route)
    ensures Normalize(route) != "" && Normalize(Normalize(route)) == Normalize(route)
  {
    NormalizeIsIdempotent(route);
    NormalizeIs(route);
    JoinIsEmpty(NamesOf(route));
  }

  // ----- The buffer of responses -----

  type Response = string

  /** The state of the simulation that handlers report on. */
  type State = nat

  /** Handlers of this registrar do not look at the request: a handler is a table of what it
      answers in each state, with "" where it says nothing. */
  type Handler = imap<State, Response>

  function Said(h: Handler, state: State): Response { if state in h then h[state] else "" }

  /** The buffer has the keys of the handlers, so every lookup hits, and what it finds is what
      the handler answered in the state in which the key was refreshed last. */
  ghost predicate Coherent(handlers: map<string, Handler>, buffer: map<string, Response>, refreshed: map<string, State>) {
    && handlers.Keys == buffer.Keys == refreshed.Keys
    && forall key | key in handlers :: buffer[key] == Said(handlers[key], refreshed[key])
  }

  lemma CoherentRefresh(handlers: map<string, Handler>, buffer: map<string, Response>, refreshed: map<string, State>,
                        key: string, now: State)
    requires Coherent(handlers, buffer, refreshed) && key in handlers
    ensures Coherent(handlers, buffer[key := Said(handlers[key], now)], refreshed[key := now])
  {
  }

  lemma CoherentMore(handlers: map<string, Handler>, buffer: map<string, Response>, refreshed: map<string, State>,
                     key: string, h: Handler, now: State)
    requires Coherent(handlers, buffer, refreshed)
    ensures Coherent(handlers[key := h], buffer[key := Said(h, now)], refreshed[key := now])
  {
  }

  /** The endpoints are the keys, which are normal forms. */
  predicate Lists(endpoints: seq<string>, keys: set<string>) {
    (set key | key in endpoints) == keys && forall key | key in keys :: key != "" && Normalize(key) == key
  }

  lemma ListsMore(endpoints: seq<string>, keys: set<string>, key: string)
    requires Lists(endpoints, keys) && key != "" && Normalize(key) == key
    ensures Lists(endpoints + [key], keys + {key})
  {
  }

  class BufferRegistrar {
    const prefix: string
    const middleware: Option<Handler -> Handler>
    const handlers: Muxer<Handler>
    const buffer: Muxer<Response>
    var endpoints: seq<string>
    /** The state in which each key was refreshed last. */
    ghost var refreshed: map<string, State>

    ghost predicate Valid()
      reads this, handlers, buffer
    {
      && (handlers as object) != (buffer as object)
      && !handlers.backtrack && !buffer.backtrack
      && Coherent(handlers.routes, buffer.routes, refreshed)
      && Lists(endpoints, handlers.routes.Keys)
    }

    constructor (prefix: string, middleware: Option<Handler -> Handler>)
      requires prefix == "" || prefix[0] == '/'
      ensures Valid() && endpoints == [] && fresh(handlers) && fresh(buffer)
      ensures this.prefix == prefix && this.middleware == middleware
    {
      this.prefix, this.middleware := prefix, middleware;
      handlers := new Muxer<Handler>();
      buffer := new Muxer<Response>();
      endpoints, refreshed := [], map[];
    }

    function Key(route: string): string { Normalize(prefix + route) }

    function Wrapped(h: Handler): Handler { if middleware.Some? then middleware.value(h) else h }

    /** Register a handler and buffer its first answer; a route that leads to the same place as
        one that is registered is refused. */
    method RegisterHandler(route: string, h: Handler, now: State) returns (r: Result<(), Failure>)
      requires Valid() && IsAbsolute(prefix + route)
      modifies this, handlers, buffer
      ensures Valid()
      ensures r.Ok? <==> Normalize(prefix + route) !in old(handlers.routes)
      ensures r.Ok? ==>
        && endpoints == old(endpoints) + [Normalize(prefix + route)]
        && handlers.routes == old(handlers.routes)[Normalize(prefix + route) := Wrapped(h)]
        && refreshed == old(refreshed)[Normalize(prefix + route) := now]
      ensures middleware == None ==> Wrapped(h) == h
      ensures middleware.Some? ==> Wrapped(h) == middleware.value(h)
      ensures r.Err? ==>
        endpoints == old(endpoints) && handlers.routes == old(handlers.routes) && refreshed == old(refreshed)
    {
      var key := Key(route);
      KeyIsNormal(prefix + route);
      r := handlers.Add(key, Wrapped(h));
      if r.Ok? {
        endpoints := endpoints + [key];
        RefreshRoute(key, now);
        CoherentMore(old(handlers.routes), old(buffer.routes), old(refreshed), key, Wrapped(h), now);
        ListsMore(old(endpoints), old(handlers.routes).Keys, key);
        assert handlers.routes.Keys == old(handlers.routes).Keys + {key};
      }
    }

    method RefreshRoute(key: string, now: State)
      requires key in handlers.routes && (handlers as object) != (buffer as object)
      modifies buffer`routes, this`refreshed
      ensures buffer.routes == old(buffer.routes)[key := Said(handlers.routes[key], now)]
      ensures refreshed == old(refreshed)[key := now]
    {
      var h := handlers.GetUnsafe(key);
      buffer.SetUnsafe(key, Said(h.value, now));
      refreshed := refreshed[key := now];
    }

    /** Afterwards every registered route answers for the state `now`. */
    method RefreshBuffer(now: State)
      requires Valid()
      modifies buffer`routes, this`refreshed
      ensures Valid()
      ensures refreshed.Keys == handlers.routes.Keys && forall key | key in refreshed :: refreshed[key] == now
    {
      var keys := handlers.routes.Keys - {""};
      assert keys == handlers.routes.Keys;
      RefreshRoutes(keys, now);
    }

    method RefreshOne(key: string, now: State)
      requires (handlers as object) != (buffer as object)
      requires Coherent(handlers.routes, buffer.routes, refreshed) && key in handlers.routes
      modifies buffer`routes, this`refreshed
      ensures Coherent(handlers.routes, buffer.routes, refreshed) && refreshed == old(refreshed)[key := now]
    {
      CoherentRefresh(handlers.routes, buffer.routes, refreshed, key, now);
      RefreshRoute(key, now);
    }

    method RefreshRoutes(keys: set<string>, now: State)
      requires (handlers as object) != (buffer as object)
      requires Coherent(handlers.routes, buffer.routes, refreshed) && keys <= handlers.routes.Keys
      modifies buffer`routes, this`refreshed
      ensures Coherent(handlers.routes, buffer.routes, refreshed)
      ensures forall key | key in keys :: refreshed[key] == now
    {
      var todo := keys;
      while todo != {}
        invariant Coherent(handlers.routes, buffer.routes, refreshed) && todo <= keys
        invariant forall key | key in keys && key !in todo :: refreshed[key] == now
        decreases todo
      {
        var key :| key in todo;
        RefreshOne(key, now);
        todo := todo - {key};
      }
    }

    /** What the server answers for a registered key. */
    method Answer(key: string) returns (r: Result<Response, Failure>)
      requires Valid() && key in endpoints
      ensures var h := handlers.routes[key]; r == Ok(if refreshed[key] in h then h[refreshed[key]] else "")
    {
      r := buffer.Get(key);
    }

    /** Until the next refresh, whatever is registered meanwhile, every route of the time of the
        last one answers exactly what its handler said then. */
    method RefreshThenServe(now: State, later: seq<(string, Handler, State)>, key: string)
        returns (r: Result<Response, Failure>)
      requires Valid() && key in endpoints
      requires forall i | 0 <= i < |later| :: IsAbsolute(prefix + later[i].0)
      modifies this, handlers, buffer
      ensures Valid() && key in old(handlers.routes)
      ensures var h := old(handlers.routes)[key]; r == Ok(if now in h then h[now] else "")
    {
      ghost var handler := handlers.routes[key];
      RefreshBuffer(now);
      for i := 0 to |later|
        invariant Valid() && key in handlers.routes && handlers.routes[key] == handler && refreshed[key] == now
      {
        var _ := RegisterHandler(later[i].0, later[i].1, later[i].2);
      }
      r := Answer(key);
    }
  }
}
