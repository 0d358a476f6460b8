/** `normalize_variable_names` of AST.py: the `VariableNameNormalizer` visitor,
    a name map plus a counter, renaming identifiers to `var1`, `var2`, ... in
    order of first appearance. */
module Normalizer {
  import opened Syntax

  function DigitChar(d: nat): char
    requires d < 10
  {
    (48 + d) as char
  }

  /** `str(n)` for a natural number. */
  function Digits(n: nat): (s: string)
    ensures |s| >= 1 && (n >= 10 ==> |s| >= 2)
    decreases n
  {
    if n < 10 then [DigitChar(n)] else Digits(n / 10) + [DigitChar(n % 10)]
  }

  /** `f"var{k}"`. */
  function CanonicalName(k: nat): string
  {
    "var" + Digits(k)
  }

  lemma {:induction false} DigitsInjective(a: nat, b: nat)
    requires Digits(a) == Digits(b)
    ensures a == b
    decreases a
  {
    var s := Digits(a);
    if a < 10 && b < 10 {
      assert s[0] == DigitChar(a) && s[0] == DigitChar(b);
      assert (DigitChar(a) as int) == 48 + a;
    } else if a >= 10 && b >= 10 {
      assert s[|s| - 1] == DigitChar(a % 10) && s[|s| - 1] == DigitChar(b % 10);
      assert (DigitChar(a % 10) as int) == 48 + a % 10;
      assert s[..|s| - 1] == Digits(a / 10) && s[..|s| - 1] == Digits(b / 10);
      DigitsInjective(a / 10, b / 10);
    }
  }

  /** Distinct counters give distinct canonical names. */
  lemma CanonicalNameInjective(a: nat, b: nat)
    ensures CanonicalName(a) == CanonicalName(b) ==> a == b
  {
    if CanonicalName(a) == CanonicalName(b) {
      assert CanonicalName(a)[3..] == Digits(a);
      assert CanonicalName(b)[3..] == Digits(b);
      DigitsInjective(a, b);
    }
  }

  /** The normaliser's state: `variable_map` and `counter`. */
  datatype Names = Names(variableMap: map<string, string>, counter: nat)

  /** The state invariant: the counter counts the map's entries, every
      canonical name is one of `var1` .. `var{counter}`, and distinct
      original names have distinct canonical names. */
  ghost predicate ValidNames(st: Names)
  {
    && st.counter == |st.variableMap|
    && (forall x :: x in st.variableMap ==> exists k :: 1 <= k <= st.counter && st.variableMap[x] == CanonicalName(k))
    && (forall x, y :: x in st.variableMap && y in st.variableMap && x != y ==> st.variableMap[x] != st.variableMap[y])
  }

  /** `get_new_name` on a state value: the state after the call and the name returned. */
  function NextName(st: Names, original: string): (r: (Names, string))
    ensures original in r.0.variableMap && r.0.variableMap[original] == r.1
  {
    if original in st.variableMap then (st, st.variableMap[original])
    else
      var name := CanonicalName(st.counter + 1);
      (Names(st.variableMap[original := name], st.counter + 1), name)
  }

  /** The tokens the visitor renames: `Name` in Store or Load context, and `arg`. */
  predicate Renamable(t: Token)
  {
    (t.Name? && (t.ctx == Store || t.ctx == Load)) || t.Arg?
  }

  function IdOf(t: Token): string
    requires Renamable(t)
  {
    if t.Name? then t.id else t.arg
  }

  function WithId(t: Token, id: string): Token
    requires Renamable(t)
  {
    if t.Name? then Name(id, t.ctx) else Arg(id)
  }

  /** `visit_Name`, `visit_arg`, and the unchanged pass-through of every other leaf. */
  function VisitToken(st: Names, t: Token): (Names, Token)
  {
    match t
    case Name(id, ctx) =>
      if ctx == Store || ctx == Load then
        var r := NextName(st, id);
        (r.0, Name(r.1, ctx))
      else (st, t)
    case Arg(a) =>
      var r := NextName(st, a);
      (r.0, Arg(r.1))
    case Other(_) => (st, t)
  }

  /** One visitor run over `toks` from state `st`: the final state and the rewritten tokens. */
  function NormalizeFrom(st: Names, toks: seq<Token>): (r: (Names, seq<Token>))
    ensures |r.1| == |toks|
    decreases |toks|
  {
    if toks == [] then (st, [])
    else
      var prefix := NormalizeFrom(st, toks[..|toks| - 1]);
      var last := VisitToken(prefix.0, toks[|toks| - 1]);
      (last.0, prefix.1 + [last.1])
  }

  /** `normalize_variable_names`: a fresh visitor (empty map, counter 0) over the tokens. */
  function Normalize(toks: seq<Token>): seq<Token>
  {
    NormalizeFrom(Names(map[], 0), toks).1
  }

  /** The identifiers the visitor renames in `toks`. */
  function IdsOf(toks: seq<Token>): set<string>
  {
    if toks == [] then {}
    else IdsOf(toks[..|toks| - 1]) + (if Renamable(toks[|toks| - 1]) then {IdOf(toks[|toks| - 1])} else {})
  }

  /** A token as rewritten by a finished name map. */
  function Renamed(m: map<string, string>, t: Token): Token
  {
    if Renamable(t) && IdOf(t) in m then WithId(t, m[IdOf(t)]) else t
  }

  /** `get_new_name` keeps the invariant (a new name is `var{counter + 1}`,
      which no earlier original name has), never changes an existing binding
      and binds the name it was asked about. */
  lemma NextNameKeepsValid(st: Names, original: string)
    requires ValidNames(st)
    ensures var r := NextName(st, original);
      && ValidNames(r.0)
      && (forall x :: x in st.variableMap ==> x in r.0.variableMap && r.0.variableMap[x] == st.variableMap[x])
      && r.0.variableMap.Keys == st.variableMap.Keys + {original}
  {
    if original !in st.variableMap {
      var m, c := st.variableMap, st.counter;
      var name := CanonicalName(c + 1);
      var m' := m[original := name];
      NewNameIsFresh(st);
      assert m'.Keys == m.Keys + {original};
      forall y | y in m'
        ensures exists k :: 1 <= k <= c + 1 && m'[y] == CanonicalName(k)
      {
        if y == original {
          assert m'[y] == CanonicalName(c + 1);
        } else {
          var k :| 1 <= k <= c && m[y] == CanonicalName(k);
          assert m'[y] == CanonicalName(k);
        }
      }
    }
  }

  /** `var{counter + 1}` is not yet the canonical name of anything. */
  lemma NewNameIsFresh(st: Names)
    requires ValidNames(st)
    ensures CanonicalName(st.counter + 1) !in st.variableMap.Values
  {
    forall y | y in st.variableMap
      ensures st.variableMap[y] != CanonicalName(st.counter + 1)
    {
      var k :| 1 <= k <= st.counter && st.variableMap[y] == CanonicalName(k);
      CanonicalNameInjective(k, st.counter + 1);
    }
  }

  /** `get_new_name` returns the same canonical name every time it is asked
      about the same original name, and the second call changes nothing. */
  lemma NextNameIsStable(st: Names, original: string)
    ensures NextName(NextName(st, original).0, original) == NextName(st, original)
  {
  }

  lemma VisitTokenKeepsValid(st: Names, t: Token)
    requires ValidNames(st)
    ensures ValidNames(VisitToken(st, t).0)
  {
    match t
    case Name(id, ctx) =>
      if ctx == Store || ctx == Load {
        NextNameKeepsValid(st, id);
      }
    case Arg(a) => NextNameKeepsValid(st, a);
    case Other(_) =>
  }

  /** A visit only adds the binding of the identifier it renames, and the
      token it returns is the input rewritten through the new map. */
  lemma VisitTokenGrows(st: Names, t: Token)
    ensures var r := VisitToken(st, t);
      && (forall x :: x in st.variableMap ==> x in r.0.variableMap && r.0.variableMap[x] == st.variableMap[x])
      && r.0.variableMap.Keys == st.variableMap.Keys + (if Renamable(t) then {IdOf(t)} else {})
      && r.1 == Renamed(r.0.variableMap, t)
  {
  }

  /** A visitor run keeps the invariant. */
  lemma {:induction false} NormalizeFromKeepsValid(st: Names, toks: seq<Token>)
    requires ValidNames(st)
    ensures ValidNames(NormalizeFrom(st, toks).0)
  {
    if toks != [] {
      var p := toks[..|toks| - 1];
      NormalizeFromKeepsValid(st, p);
      VisitTokenKeepsValid(NormalizeFrom(st, p).0, toks[|toks| - 1]);
    }
  }

  /** A visitor run never changes an existing binding, and binds exactly the
      renamable identifiers it met. */
  lemma {:induction false} NormalizeFromGrows(st: Names, toks: seq<Token>)
    ensures var r := NormalizeFrom(st, toks);
      && (forall x :: x in st.variableMap ==> x in r.0.variableMap && r.0.variableMap[x] == st.variableMap[x])
      && r.0.variableMap.Keys == st.variableMap.Keys + IdsOf(toks)
  {
    if toks != [] {
      var p := toks[..|toks| - 1];
      var t := toks[|toks| - 1];
      NormalizeFromGrows(st, p);
      var prefix := NormalizeFrom(st, p);
      VisitTokenGrows(prefix.0, t);
      var extra := if Renamable(t) then {IdOf(t)} else {};
      assert NormalizeFrom(st, toks).0.variableMap.Keys == prefix.0.variableMap.Keys + extra;
      assert IdsOf(toks) == IdsOf(p) + extra;
    }
  }

  /** A visitor run rewrites every token through its final name map, which
      binds every renamable identifier of the input. */
  lemma {:induction false} NormalizeFromRenamesThroughMap(st: Names, toks: seq<Token>)
    ensures var r := NormalizeFrom(st, toks);
      && (forall i :: 0 <= i < |toks| && Renamable(toks[i]) ==> IdOf(toks[i]) in r.0.variableMap)
      && (forall i :: 0 <= i < |toks| ==> r.1[i] == Renamed(r.0.variableMap, toks[i]))
  {
    if toks != [] {
      var p := toks[..|toks| - 1];
      var t := toks[|toks| - 1];
      NormalizeFromRenamesThroughMap(st, p);
      var prefix := NormalizeFrom(st, p);
      VisitTokenGrows(prefix.0, t);
      var r := NormalizeFrom(st, toks);
      var m, m' := prefix.0.variableMap, r.0.variableMap;
      assert r.0 == VisitToken(prefix.0, t).0;
      forall i | 0 <= i < |p|
        ensures Renamable(toks[i]) ==> IdOf(toks[i]) in m'
        ensures r.1[i] == Renamed(m', toks[i])
      {
        assert toks[i] == p[i];
        assert r.1[i] == prefix.1[i];
        if Renamable(p[i]) {
          assert IdOf(p[i]) in m;
          assert m'[IdOf(p[i])] == m[IdOf(p[i])];
        }
      }
    }
  }

  /** Token `i` of a run is rewritten with the state reached after `toks[..i]`. */
  lemma {:induction false} NormalizeFromAt(st: Names, toks: seq<Token>, i: nat)
    requires i < |toks|
    ensures NormalizeFrom(st, toks).1[i] == VisitToken(NormalizeFrom(st, toks[..i]).0, toks[i]).1
  {
    var n := |toks|;
    if i < n - 1 {
      NormalizeFromAt(st, toks[..n - 1], i);
      assert toks[..n - 1][..i] == toks[..i];
      assert toks[..n - 1][i] == toks[i];
    } else {
      assert toks[..n - 1] == toks[..i];
    }
  }

  /** The normalised tokens are a consistent one-to-one renaming of the input:
      same kind and context, other tokens untouched, equal identifiers map to
      equal canonical names and distinct ones to distinct names. */
  lemma NormalizeIsConsistentRenaming(toks: seq<Token>)
    ensures |Normalize(toks)| == |toks|
    ensures forall i :: 0 <= i < |toks| && !Renamable(toks[i]) ==> Normalize(toks)[i] == toks[i]
    ensures forall i :: 0 <= i < |toks| && Renamable(toks[i]) ==>
      Renamable(Normalize(toks)[i]) && Normalize(toks)[i] == WithId(toks[i], IdOf(Normalize(toks)[i]))
    ensures forall i, j :: 0 <= i < |toks| && 0 <= j < |toks| && Renamable(toks[i]) && Renamable(toks[j]) ==>
      (IdOf(toks[i]) == IdOf(toks[j]) <==> IdOf(Normalize(toks)[i]) == IdOf(Normalize(toks)[j]))
  {
    NormalizeFromKeepsValid(Names(map[], 0), toks);
    NormalizeFromRenamesThroughMap(Names(map[], 0), toks);
  }

  /** Canonical names are handed out in order of first appearance: the first
      occurrence of a new identifier at position `i` gets `var{k}`, where `k - 1`
      distinct identifiers were renamed before it. */
  lemma NormalizeNamesInOrder(toks: seq<Token>, i: nat)
    requires i < |toks| && Renamable(toks[i]) && IdOf(toks[i]) !in IdsOf(toks[..i])
    ensures Renamable(Normalize(toks)[i])
    ensures IdOf(Normalize(toks)[i]) == CanonicalName(|IdsOf(toks[..i])| + 1)
  {
    var empty := Names(map[], 0);
    NormalizeFromAt(empty, toks, i);
    NormalizeFromKeepsValid(empty, toks[..i]);
    NormalizeFromGrows(empty, toks[..i]);
    var st := NormalizeFrom(empty, toks[..i]).0;
    assert st.variableMap.Keys == IdsOf(toks[..i]);
    assert |st.variableMap| == |st.variableMap.Keys|;
  }

  /** Pass-2 state `st2` mirrors pass-1 state `st1`: it maps exactly the
      canonical names `st1` has handed out, each to itself. */
  ghost predicate Mirrors(st1: Names, st2: Names)
  {
    && ValidNames(st1)
    && st2.counter == st1.counter
    && (forall v :: v in st2.variableMap <==> v in st1.variableMap.Values)
    && (forall v :: v in st2.variableMap ==> st2.variableMap[v] == v)
  }

  /** Asking pass 2 about the name pass 1 returned gives that name back. */
  lemma MirrorsNextName(st1: Names, st2: Names, x: string)
    requires Mirrors(st1, st2)
    ensures var r1 := NextName(st1, x);
      var r2 := NextName(st2, r1.1);
      r2.1 == r1.1 && Mirrors(r1.0, r2.0)
  {
    var m1 := st1.variableMap;
    NextNameKeepsValid(st1, x);
    if x in m1 {
      assert m1[x] in m1.Values;
    } else {
      var name := CanonicalName(st1.counter + 1);
      NewNameIsFresh(st1);
      var m1' := m1[x := name];
      forall v
        ensures v in m1'.Values <==> v in m1.Values || v == name
      {
        if v in m1.Values {
          var y :| y in m1 && m1[y] == v;
          assert m1'[y] == v;
        }
        if v in m1'.Values {
          var y :| y in m1' && m1'[y] == v;
          if y != x {
            assert m1[y] == v;
          }
        }
      }
    }
  }

  lemma MirrorsStep(st1: Names, st2: Names, t: Token)
    requires Mirrors(st1, st2)
    ensures VisitToken(st2, VisitToken(st1, t).1).1 == VisitToken(st1, t).1
    ensures Mirrors(VisitToken(st1, t).0, VisitToken(st2, VisitToken(st1, t).1).0)
  {
    match t
    case Name(id, ctx) =>
      if ctx == Store || ctx == Load {
        MirrorsNextName(st1, st2, id);
      }
    case Arg(a) => MirrorsNextName(st1, st2, a);
    case Other(_) =>
  }

  lemma {:induction false} NormalizeFromMirrored(st1: Names, st2: Names, toks: seq<Token>)
    requires Mirrors(st1, st2)
    ensures var r1 := NormalizeFrom(st1, toks);
      var r2 := NormalizeFrom(st2, r1.1);
      r2.1 == r1.1 && Mirrors(r1.0, r2.0)
  {
    if toks != [] {
      var p := toks[..|toks| - 1];
      var t := toks[|toks| - 1];
      NormalizeFromMirrored(st1, st2, p);
      var a := NormalizeFrom(st1, p);
      var b := NormalizeFrom(st2, a.1);
      var t1 := VisitToken(a.0, t);
      MirrorsStep(a.0, b.0, t);
      var out := a.1 + [t1.1];
      assert out[..|out| - 1] == a.1;
    }
  }

  /** Normalising an already normalised sequence returns it unchanged. */
  lemma NormalizeIsIdempotent(toks: seq<Token>)
    ensures Normalize(Normalize(toks)) == Normalize(toks)
  {
    var empty := Names(map[], 0);
    assert Mirrors(empty, empty);
    NormalizeFromMirrored(empty, empty, toks);
  }

  ghost predicate Injective(rho: string -> string)
  {
    forall x, y :: rho(x) == rho(y) ==> x == y
  }

  /** Consistently renames the identifiers the visitor renames. */
  function RenameToken(rho: string -> string, t: Token): Token
  {
    if Renamable(t) then WithId(t, rho(IdOf(t))) else t
  }

  function RenameIdentifiers(rho: string -> string, toks: seq<Token>): (r: seq<Token>)
    ensures |r| == |toks|
  {
    if toks == [] then []
    else RenameIdentifiers(rho, toks[..|toks| - 1]) + [RenameToken(rho, toks[|toks| - 1])]
  }

  /** State `st2`, reached on the renamed input, is `st1` seen through `rho`. */
  ghost predicate Corresponds(rho: string -> string, st1: Names, st2: Names)
  {
    && st1.counter == st2.counter
    && (forall x :: x in st1.variableMap <==> rho(x) in st2.variableMap)
    && (forall x :: x in st1.variableMap ==> st2.variableMap[rho(x)] == st1.variableMap[x])
  }

  lemma CorrespondsStep(rho: string -> string, st1: Names, st2: Names, t: Token)
    requires Injective(rho) && Corresponds(rho, st1, st2)
    ensures VisitToken(st2, RenameToken(rho, t)).1 == VisitToken(st1, t).1
    ensures Corresponds(rho, VisitToken(st1, t).0, VisitToken(st2, RenameToken(rho, t)).0)
  {
  }

  lemma {:induction false} NormalizeFromCorresponds(rho: string -> string, st1: Names, st2: Names, toks: seq<Token>)
    requires Injective(rho) && Corresponds(rho, st1, st2)
    ensures NormalizeFrom(st2, RenameIdentifiers(rho, toks)).1 == NormalizeFrom(st1, toks).1
    ensures Corresponds(rho, NormalizeFrom(st1, toks).0, NormalizeFrom(st2, RenameIdentifiers(rho, toks)).0)
  {
    if toks != [] {
      var p := toks[..|toks| - 1];
      var t := toks[|toks| - 1];
      NormalizeFromCorresponds(rho, st1, st2, p);
      var renamed := RenameIdentifiers(rho, toks);
      assert renamed[..|renamed| - 1] == RenameIdentifiers(rho, p);
      CorrespondsStep(rho, NormalizeFrom(st1, p).0, NormalizeFrom(st2, RenameIdentifiers(rho, p)).0, t);
    }
  }

  /** The docstring's goal: two token sequences that differ only by an
      injective renaming of the identifiers the visitor renames normalise to
      the same sequence. */
  lemma RenamingInvariance(rho: string -> string, toks: seq<Token>)
    requires Injective(rho)
    ensures Normalize(RenameIdentifiers(rho, toks)) == Normalize(toks)
  {
    NormalizeFromCorresponds(rho, Names(map[], 0), Names(map[], 0), toks);
  }

  /** `visit_Name` leaves a `Name` in Del context alone, so renaming the
      target of a `del` is not absorbed: the single statements
      `for x in y: del x` and `for z in y: del z` normalise differently. */
  lemma DelNameIsNotNormalised()
    ensures Normalize([Name("x", Store), Name("y", Load), Name("x", Del)])
         != Normalize([Name("z", Store), Name("y", Load), Name("z", Del)])
  {
    var a := [Name("x", Store), Name("y", Load), Name("x", Del)];
    var b := [Name("z", Store), Name("y", Load), Name("z", Del)];
    NormalizeFromStep(Names(map[], 0), a, 2);
    NormalizeFromStep(Names(map[], 0), b, 2);
    assert Normalize(a)[2] == Name("x", Del);
    assert Normalize(b)[2] == Name("z", Del);
  }

  /** Visiting one more token extends the visit of the prefix before it. */
  lemma NormalizeFromStep(st: Names, toks: seq<Token>, i: nat)
    requires i < |toks|
    ensures var prefix := NormalizeFrom(st, toks[..i]);
      var step := VisitToken(prefix.0, toks[i]);
      NormalizeFrom(st, toks[..i + 1]) == (step.0, prefix.1 + [step.1])
  {
    assert toks[..i + 1][..i] == toks[..i];
  }

  /** The visitor object of `normalize_variable_names`. */
  class VariableNameNormalizer {
    var variableMap: map<string, string>
    var counter: nat

    ghost predicate Valid()
      reads this
    {
      ValidNames(Names(variableMap, counter))
    }

    function State(): Names
      reads this
    {
      Names(variableMap, counter)
    }

    constructor ()
      ensures Valid() && variableMap == map[] && counter == 0
    {
      variableMap := map[];
      counter := 0;
    }

    /** `get_new_name`: the known canonical name, or `var{counter + 1}` for a
        name not seen before, recorded in the map. */
    method GetNewName(originalName: string) returns (newName: string)
      requires Valid()
      modifies this
      ensures Valid()
      ensures (State(), newName) == NextName(old(State()), originalName)
      ensures originalName in old(variableMap) ==>
        newName == old(variableMap)[originalName] && variableMap == old(variableMap) && counter == old(counter)
      ensures originalName !in old(variableMap) ==>
        && newName == CanonicalName(old(counter) + 1)
        && counter == old(counter) + 1 && counter == |variableMap|
        && variableMap == old(variableMap)[originalName := newName]
    {
      NextNameKeepsValid(State(), originalName);
      if originalName !in variableMap {
        counter := counter + 1;
        variableMap := variableMap[originalName := CanonicalName(counter)];
      }
      newName := variableMap[originalName];
    }

    /** `visit_Name`: renames a Store or Load name, returns any other name as is. */
    method VisitName(node: Token) returns (result: Token)
      requires Valid() && node.Name?
      modifies this
      ensures Valid()
      ensures (State(), result) == VisitToken(old(State()), node)
    {
      if node.ctx == Store || node.ctx == Load {
        var newName := GetNewName(node.id);
        result := Name(newName, node.ctx);
      } else {
        result := node;
      }
    }

    /** `visit_arg`: renames an argument. */
    method VisitArg(node: Token) returns (result: Token)
      requires Valid() && node.Arg?
      modifies this
      ensures Valid()
      ensures (State(), result) == VisitToken(old(State()), node)
    {
      var newName := GetNewName(node.arg);
      result := Arg(newName);
    }

    /** `visit`: dispatches on every leaf of the statement in traversal order. */
    method Visit(tokens: seq<Token>) returns (result: seq<Token>)
      requires Valid()
      modifies this
      ensures Valid()
      ensures (State(), result) == NormalizeFrom(old(State()), tokens)
    {
      ghost var start := State();
      result := [];
      var i := 0;
      while i < |tokens|
        invariant 0 <= i <= |tokens|
        invariant Valid()
        invariant (State(), result) == NormalizeFrom(start, tokens[..i])
        decreases |tokens| - i
      {
        var node := tokens[i];
        NormalizeFromStep(start, tokens, i);
        var out: Token;
        match node {
          case Name(_, _) => out := VisitName(node);
          case Arg(_) => out := VisitArg(node);
          case Other(_) => out := node;
        }
        result := result + [out];
        i := i + 1;
      }
      assert tokens[..|tokens|] == tokens;
    }
  }

  /** `normalize_variable_names`: a fresh visitor for every call. */
  method NormalizeVariableNames(tokens: seq<Token>) returns (result: seq<Token>)
    ensures result == Normalize(tokens)
  {
    var normalizer := new VariableNameNormalizer();
    result := normalizer.Visit(tokens);
  }
}
