/** The state of a Transformers collection as a value, and the effect of each
    of its state-changing operations as a function of that value. The class
    Transformers.Transformers is proved against these functions; the lemmas
    here state what the registry promises. */
module RegistrySpec {
  import opened Errors
  import opened AbstractTransformer

  /** $items, $customTokens, and the global state registration writes. */
  datatype RegistryState = RegistryState(
    items: seq<Transformer>,
    customTokens: map<int, string>,
    globals: TokenGlobals
  )

  // ---------------------------------------------------------------------
  // addCustomToken and the loop of registerTransformer that calls it
  // ---------------------------------------------------------------------

  /** addCustomToken(value, name) on the map $customTokens. */
  function AddEntry(tokens: map<int, string>, value: int, name: string): (r: (map<int, string>, Outcome))
    ensures r.1.Pass? <==> value !in tokens
    ensures r.1.Pass? ==>
      && r.0.Keys == tokens.Keys + {value}
      && r.0[value] == name
      && forall v :: v in tokens ==> r.0[v] == tokens[v]
    ensures r.1.Fail? ==> r.0 == tokens && r.1.error == LogicException(name, value, tokens[value])
  {
    if value in tokens then (tokens, Fail(LogicException(name, value, tokens[value])))
    else (tokens[value := name], Pass)
  }

  /** Every name has a value in the constant table (constant($name) succeeds). */
  predicate AllDefined(constants: map<string, int>, names: seq<string>)
  {
    forall n :: n in names ==> n in constants
  }

  /** foreach getCustomTokenNames() as $name: addCustomToken(constant($name), $name).
      The first throw ends the loop; entries added before it stay. */
  function AddAll(tokens: map<int, string>, constants: map<string, int>, names: seq<string>)
    : (r: (map<int, string>, Outcome))
    requires AllDefined(constants, names)
    ensures forall v :: v in tokens ==> v in r.0 && r.0[v] == tokens[v]
    ensures forall v :: v in r.0 && v !in tokens ==> r.0[v] in names && constants[r.0[v]] == v
    ensures r.1.Pass? ==> forall n :: n in names ==> constants[n] in r.0 && r.0[constants[n]] == n
    ensures r.1.Fail? ==>
      && r.1.error.LogicException?
      && r.1.error.name in names
      && r.1.error.value == constants[r.1.error.name]
      && r.1.error.value in r.0
      && r.0[r.1.error.value] == r.1.error.existing
    decreases |names|
  {
    if names == [] then (tokens, Pass)
    else
      var step := AddEntry(tokens, constants[names[0]], names[0]);
      if step.1.Fail? then step else AddAll(step.0, constants, names[1..])
  }

  /** The names' values are all free in `tokens` and pairwise distinct. */
  predicate CanAddAll(tokens: map<int, string>, constants: map<string, int>, names: seq<string>)
    requires AllDefined(constants, names)
  {
    && (forall i :: 0 <= i < |names| ==> constants[names[i]] !in tokens)
    && (forall i, j :: 0 <= i < j < |names| ==> constants[names[i]] != constants[names[j]])
  }

  /** CanAddAll, peeled by its first name. */
  lemma CanAddAllCons(tokens: map<int, string>, constants: map<string, int>, names: seq<string>)
    requires names != [] && AllDefined(constants, names)
    ensures var v := constants[names[0]];
      CanAddAll(tokens, constants, names) <==>
        v !in tokens && CanAddAll(tokens[v := names[0]], constants, names[1..])
  {
    var v := constants[names[0]];
    var rest := names[1..];
    assert forall i :: 0 <= i < |rest| ==> rest[i] == names[i + 1];
    if v !in tokens {
      var t1 := tokens[v := names[0]];
      if CanAddAll(tokens, constants, names) {
        forall i | 0 <= i < |rest| ensures constants[rest[i]] !in t1 {
          assert constants[names[0]] != constants[names[i + 1]];
        }
        forall i, j | 0 <= i < j < |rest| ensures constants[rest[i]] != constants[rest[j]] {
          assert constants[names[i + 1]] != constants[names[j + 1]];
        }
      }
      if CanAddAll(t1, constants, rest) {
        forall i | 0 <= i < |names| ensures constants[names[i]] !in tokens {
          if i > 0 { assert constants[rest[i - 1]] !in t1; }
        }
        forall i, j | 0 <= i < j < |names| ensures constants[names[i]] != constants[names[j]] {
          assert constants[rest[j - 1]] !in t1;
          if i > 0 { assert constants[rest[i - 1]] != constants[rest[j - 1]]; }
        }
      }
    }
  }

  /** The loop of addCustomToken calls completes exactly when no value is
      already taken and no two names share a value. */
  lemma {:induction false} AddAllSucceedsIff(tokens: map<int, string>, constants: map<string, int>, names: seq<string>)
    requires AllDefined(constants, names)
    ensures AddAll(tokens, constants, names).1.Pass? <==> CanAddAll(tokens, constants, names)
    decreases |names|
  {
    if names != [] {
      var v := constants[names[0]];
      CanAddAllCons(tokens, constants, names);
      if v !in tokens {
        AddAllSucceedsIff(tokens[v := names[0]], constants, names[1..]);
      }
    }
  }

  /** A name whose value is already a key makes the loop throw. */
  lemma AddAllFailsOnTaken(tokens: map<int, string>, constants: map<string, int>, names: seq<string>, n: string)
    requires AllDefined(constants, names)
    requires n in names && constants[n] in tokens
    ensures AddAll(tokens, constants, names).1.Fail?
  {
    AddAllSucceedsIff(tokens, constants, names);
    var i :| 0 <= i < |names| && names[i] == n;
    assert !CanAddAll(tokens, constants, names);
  }

  // ---------------------------------------------------------------------
  // registerTransformer and registerBuiltInTransformers
  // ---------------------------------------------------------------------

  /** registerTransformer($t) with PHP_VERSION_ID == php: append when the
      version suffices, define the custom tokens, then add each of them. */
  function RegisterStep(s: RegistryState, t: Transformer, php: int): (r: (RegistryState, Outcome))
    ensures forall n :: n in t.customTokenNames ==> n in r.0.globals.constants
    ensures r.1.Fail? ==> r.1.error.LogicException? && r.1.error.name in t.customTokenNames
    ensures r.1.Pass? ==> forall n :: n in t.customTokenNames ==>
      var v := r.0.globals.constants[n]; v in r.0.customTokens && r.0.customTokens[v] == n
    ensures forall v :: v in s.customTokens ==> v in r.0.customTokens && r.0.customTokens[v] == s.customTokens[v]
    ensures forall n :: n in s.globals.constants ==>
      n in r.0.globals.constants && r.0.globals.constants[n] == s.globals.constants[n]
  {
    var items := if php >= t.requiredPhpVersionId then s.items + [t] else s.items;
    var g := DefineAll(s.globals, t.customTokenNames);
    var added := AddAll(s.customTokens, g.constants, t.customTokenNames);
    (RegistryState(items, added.0, g), added.1)
  }

  /** The foreach of registerBuiltInTransformers over the given transformer
      list; an exception from one registration ends it. */
  function RegisterAll(s: RegistryState, ts: seq<Transformer>, php: int): (r: (RegistryState, Outcome))
    ensures r.1.Fail? ==> r.1.error.LogicException?
    decreases |ts|
  {
    if ts == [] then (s, Pass)
    else
      var step := RegisterStep(s, ts[0], php);
      if step.1.Fail? then step else RegisterAll(step.0, ts[1..], php)
  }

  /** [t] when the running PHP version supports t, else nothing. */
  function SupportedOne(t: Transformer, php: int): seq<Transformer>
  {
    if php >= t.requiredPhpVersionId then [t] else []
  }

  /** The transformers the running PHP version supports, in order. */
  function Supported(ts: seq<Transformer>, php: int): seq<Transformer>
    decreases |ts|
  {
    if ts == [] then []
    else SupportedOne(ts[0], php) + Supported(ts[1..], php)
  }

  /** One registration appends t exactly when the PHP version supports it. */
  lemma RegisterStepItems(s: RegistryState, t: Transformer, php: int)
    ensures RegisterStep(s, t, php).0.items == s.items + SupportedOne(t, php)
  {
  }

  lemma AppendTwice(a: seq<Transformer>, b: seq<Transformer>, c: seq<Transformer>, r: seq<Transformer>)
    requires r == a + b + c
    ensures r == a + (b + c)
  {
  }

  /** A successful registration appends exactly the supported transformers. */
  lemma {:induction false} RegisterAllItems(s: RegistryState, ts: seq<Transformer>, php: int)
    ensures var r := RegisterAll(s, ts, php);
      r.1.Pass? ==> r.0.items == s.items + Supported(ts, php)
    decreases |ts|
  {
    if ts != [] {
      var step := RegisterStep(s, ts[0], php);
      if step.1.Pass? {
        assert RegisterAll(s, ts, php) == RegisterAll(step.0, ts[1..], php);
        RegisterStepItems(s, ts[0], php);
        RegisterAllItems(step.0, ts[1..], php);
        var rest := RegisterAll(step.0, ts[1..], php);
        if rest.1.Pass? {
          AppendTwice(s.items, SupportedOne(ts[0], php), Supported(ts[1..], php), rest.0.items);
        }
      } else {
        assert RegisterAll(s, ts, php) == step;
      }
    }
  }

  /** A transformer that lists one name twice cannot be registered. */
  lemma RepeatedNameRejected(s: RegistryState, t: Transformer, php: int, a: nat, b: nat)
    requires a < b < |t.customTokenNames| && t.customTokenNames[a] == t.customTokenNames[b]
    ensures RegisterStep(s, t, php).1.Fail?
  {
    var g := DefineAll(s.globals, t.customTokenNames);
    AddAllSucceedsIff(s.customTokens, g.constants, t.customTokenNames);
  }

  /** Once a name's value is a registered custom token, any later transformer
      listing that name makes registration throw. */
  lemma {:induction false} RegisterAllFailsOnTaken(s: RegistryState, ts: seq<Transformer>, php: int, j: nat, n: string)
    requires j < |ts| && n in ts[j].customTokenNames
    requires n in s.globals.constants && s.globals.constants[n] in s.customTokens
    ensures RegisterAll(s, ts, php).1.Fail?
    decreases |ts|
  {
    var step := RegisterStep(s, ts[0], php);
    if step.1.Pass? {
      if j == 0 {
        var g := DefineAll(s.globals, ts[0].customTokenNames);
        AddAllFailsOnTaken(s.customTokens, g.constants, ts[0].customTokenNames, n);
      } else {
        RegisterAllFailsOnTaken(step.0, ts[1..], php, j - 1, n);
      }
    }
  }

  /** Two transformers that list the same custom token name cannot both be
      registered: the second registerCustomTokens leaves the name's value as
      it is, and addCustomToken then finds that value taken. */
  lemma {:induction false} SharedNameRejected(s: RegistryState, ts: seq<Transformer>, php: int, i: nat, j: nat, n: string)
    requires i < j < |ts|
    requires n in ts[i].customTokenNames && n in ts[j].customTokenNames
    ensures RegisterAll(s, ts, php).1.Fail? && RegisterAll(s, ts, php).1.error.LogicException?
    decreases |ts|
  {
    var step := RegisterStep(s, ts[0], php);
    if step.1.Pass? {
      if i == 0 {
        RegisterAllFailsOnTaken(step.0, ts[1..], php, j - 1, n);
      } else {
        SharedNameRejected(step.0, ts[1..], php, i - 1, j - 1, n);
      }
    }
  }

  /** Every custom token name of every transformer, in order. */
  function AllNames(ts: seq<Transformer>): seq<string>
    decreases |ts|
  {
    if ts == [] then [] else ts[0].customTokenNames + AllNames(ts[1..])
  }

  predicate NoDuplicates(names: seq<string>)
  {
    forall a, b :: 0 <= a < b < |names| ==> names[a] != names[b]
  }

  /** DefineAll defines no name outside the list. */
  lemma {:induction false} DefineAllOnlyNames(g: TokenGlobals, names: seq<string>, n: string)
    requires n !in g.constants && n !in names
    ensures n !in DefineAll(g, names).constants
    decreases |names|
  {
    if names != [] {
      DefineAllOnlyNames(DefineOne(g, names[0]), names[1..], n);
    }
  }

  /** The two halves of a duplicate-free concatenation are duplicate-free
      and disjoint. */
  lemma NoDuplicatesConcat(xs: seq<string>, ys: seq<string>)
    requires NoDuplicates(xs + ys)
    ensures NoDuplicates(xs) && NoDuplicates(ys)
    ensures forall n :: n in ys ==> n !in xs
  {
    var all := xs + ys;
    forall a, b | 0 <= a < b < |xs| ensures xs[a] != xs[b] {
      assert all[a] == xs[a] && all[b] == xs[b];
    }
    forall a, b | 0 <= a < b < |ys| ensures ys[a] != ys[b] {
      assert all[|xs| + a] == ys[a] && all[|xs| + b] == ys[b];
    }
    forall a, k | 0 <= a < |xs| && 0 <= k < |ys| ensures xs[a] != ys[k] {
      assert all[a] == xs[a] && all[|xs| + k] == ys[k];
    }
  }

  /** Undefined, distinct names get fresh values above the counter, so none
      of them is taken in a registry whose values are at most the counter. */
  lemma FreshNamesCanAdd(tokens: map<int, string>, g: TokenGlobals, names: seq<string>)
    requires forall v :: v in tokens ==> v <= g.lastGenerated
    requires forall n :: n in names ==> n !in g.constants
    requires NoDuplicates(names)
    ensures CanAddAll(tokens, DefineAll(g, names).constants, names)
  {
    var r := DefineAll(g, names);
    DefineAllFresh(g, names);
    assert forall i :: 0 <= i < |names| ==> names[i] in r.constants && names[i] !in g.constants;
  }

  /** What AddAll adds are values of names just defined, so at most the counter. */
  lemma AddedBelowCounter(tokens: map<int, string>, g: TokenGlobals, names: seq<string>, r: TokenGlobals)
    requires forall v :: v in tokens ==> v <= g.lastGenerated
    requires forall n :: n in names ==> n !in g.constants
    requires r == DefineAll(g, names)
    ensures forall v :: v in AddAll(tokens, r.constants, names).0 ==> v <= r.lastGenerated
  {
    DefineAllFresh(g, names);
    var added := AddAll(tokens, r.constants, names).0;
    forall v | v in added ensures v <= r.lastGenerated {
      if v !in tokens {
        var n := added[v];
        assert n in names && r.constants[n] == v;
      }
    }
  }

  /** One registration of undefined, distinct names into a registry whose
      values are at most the counter completes, and keeps that bound. */
  lemma FreshStepSucceeds(s: RegistryState, t: Transformer, php: int)
    requires forall v :: v in s.customTokens ==> v <= s.globals.lastGenerated
    requires forall n :: n in t.customTokenNames ==> n !in s.globals.constants
    requires NoDuplicates(t.customTokenNames)
    ensures var r := RegisterStep(s, t, php);
      && r.1.Pass?
      && forall v :: v in r.0.customTokens ==> v <= r.0.globals.lastGenerated
  {
    var names := t.customTokenNames;
    var g := DefineAll(s.globals, names);
    FreshNamesCanAdd(s.customTokens, s.globals, names);
    AddAllSucceedsIff(s.customTokens, g.constants, names);
    AddedBelowCounter(s.customTokens, s.globals, names, g);
    var r := RegisterStep(s, t, php);
    assert r.0.customTokens == AddAll(s.customTokens, g.constants, names).0 && r.0.globals == g;
  }

  /** Conversely: when the names are undefined, pairwise distinct, and every
      registered value is at most the counter, registration completes. */
  lemma {:induction false} DistinctNamesRegister(s: RegistryState, ts: seq<Transformer>, php: int)
    requires forall v :: v in s.customTokens ==> v <= s.globals.lastGenerated
    requires forall n :: n in AllNames(ts) ==> n !in s.globals.constants
    requires NoDuplicates(AllNames(ts))
    ensures RegisterAll(s, ts, php).1.Pass?
    decreases |ts|
  {
    if ts != [] {
      var names := ts[0].customTokenNames;
      assert AllNames(ts) == names + AllNames(ts[1..]);
      NoDuplicatesConcat(names, AllNames(ts[1..]));
      FreshStepSucceeds(s, ts[0], php);
      var step := RegisterStep(s, ts[0], php);
      forall n | n in AllNames(ts[1..]) ensures n !in step.0.globals.constants {
        DefineAllOnlyNames(s.globals, names, n);
      }
      DistinctNamesRegister(step.0, ts[1..], php);
    }
  }

  // ---------------------------------------------------------------------
  // The priority order the constructor's usort establishes
  // ---------------------------------------------------------------------

  /** Utils::cmpInt($b->getPriority(), $a->getPriority()) as an order:
      higher priority first. */
  predicate NonIncreasingPriority(items: seq<Transformer>)
  {
    forall i, j :: 0 <= i < j < |items| ==> GetPriority(items[i]) >= GetPriority(items[j])
  }

  /** Putting an element no lower than the first in front keeps the order. */
  lemma ConsKeepsOrder(head: Transformer, rest: seq<Transformer>)
    requires NonIncreasingPriority(rest)
    requires rest != [] ==> GetPriority(head) >= GetPriority(rest[0])
    ensures NonIncreasingPriority([head] + rest)
  {
    var r := [head] + rest;
    forall i, j | 0 <= i < j < |r| ensures GetPriority(r[i]) >= GetPriority(r[j]) {
      if i == 0 {
        assert r[j] == rest[j - 1];
        assert GetPriority(rest[0]) >= GetPriority(rest[j - 1]) || j == 1;
      } else {
        assert r[i] == rest[i - 1] && r[j] == rest[j - 1];
      }
    }
  }

  /** Insert t into an ordered sequence, keeping it ordered. */
  function InsertByPriority(sorted: seq<Transformer>, t: Transformer): (r: seq<Transformer>)
    requires NonIncreasingPriority(sorted)
    ensures NonIncreasingPriority(r)
    ensures multiset(r) == multiset(sorted) + multiset{t}
    ensures r[0] == t || (sorted != [] && r[0] == sorted[0])
    decreases |sorted|
  {
    if sorted == [] || GetPriority(t) >= GetPriority(sorted[0]) then
      ConsKeepsOrder(t, sorted);
      [t] + sorted
    else
      var head, tail := sorted[0], sorted[1..];
      assert sorted == [head] + tail;
      assert NonIncreasingPriority(tail);
      var rest := InsertByPriority(tail, t);
      ConsKeepsOrder(head, rest);
      assert multiset([head] + rest) == multiset{head} + multiset(rest);
      [head] + rest
  }
}
