/** Transformers: the collection of registered transformers and the map of
    custom token values to names, updated in place; plus the function-level
    statics of create() and registerBuiltInTransformers(). Every state change
    of the registry (addCustomToken, registerTransformer, the registration
    loop) is proved equal to the corresponding function of RegistrySpec; the
    sort and transform are specified by the properties they establish. */
module Transformers {
  import opened Errors
  import opened AbstractTransformer
  import opened RegistrySpec

  /** One call $transformer->process($tokens, $token, $index). */
  datatype Call = Call(index: nat, transformer: Transformer)

  /** Position k of a row-major walk over rows of length m is row k / m,
      column k % m. */
  lemma RowColumn(i: nat, j: nat, m: nat)
    requires j < m
    ensures (i * m + j) / m == i && (i * m + j) % m == j
  {
    var n := i * m + j;
    var q, r := n / m, n % m;
    assert q * m + r == n;
    assert (q - i) * m == j - r;
    if q > i {
      AtLeastOneRow(q - i, m);
    } else if q < i {
      AtLeastOneRow(i - q, m);
    }
  }

  lemma AtLeastOneRow(a: int, m: nat)
    requires a >= 1
    ensures a * m >= m
  {
    assert a * m == (a - 1) * m + m;
  }

  /** One step of the addCustomToken loop, seen from the middle of the list. */
  lemma AddAllUnfold(tokens: map<int, string>, constants: map<string, int>, names: seq<string>, i: nat)
    requires i < |names| && AllDefined(constants, names)
    ensures AllDefined(constants, names[i..]) && AllDefined(constants, names[i + 1..])
    ensures var step := AddEntry(tokens, constants[names[i]], names[i]);
      AddAll(tokens, constants, names[i..])
        == if step.1.Fail? then step else AddAll(step.0, constants, names[i + 1..])
  {
    assert names[i..][1..] == names[i + 1..];
    assert forall n :: n in names[i..] ==> n in names;
    assert forall n :: n in names[i + 1..] ==> n in names;
  }

  /** One step of the registration loop, seen from the middle of the list. */
  lemma RegisterAllUnfold(s: RegistryState, ts: seq<Transformer>, php: int, i: nat)
    requires i < |ts|
    ensures var step := RegisterStep(s, ts[i], php);
      RegisterAll(s, ts[i..], php)
        == if step.1.Fail? then step else RegisterAll(step.0, ts[i + 1..], php)
  {
    assert ts[i..][1..] == ts[i + 1..];
  }

  class Transformers {
    var items: seq<Transformer>
    var customTokens: map<int, string>

    /** The property initialisers: no transformers, no custom tokens. */
    constructor Empty()
      ensures items == [] && customTokens == map[]
    {
      items := [];
      customTokens := map[];
    }

    /** This collection together with the global state, as a value. */
    function State(g: Globals): RegistryState
      reads this, g
    {
      RegistryState(items, customTokens, g.Value())
    }

    /** hasCustomToken: isset($this->customTokens[$value]); names are never null. */
    function HasCustomToken(value: int): (r: bool)
      reads this
      ensures r <==> value in customTokens.Keys
    {
      value in customTokens
    }

    /** getCustomToken: the stored name, or InvalidArgumentException. */
    function GetCustomToken(value: int): (r: Result<string>)
      reads this
      ensures r.Ok? <==> HasCustomToken(value)
      ensures r.Ok? ==> r.value == customTokens[value]
      ensures r.Err? ==> r.error == InvalidArgumentException(value)
    {
      if !HasCustomToken(value) then Err(InvalidArgumentException(value))
      else Ok(customTokens[value])
    }

    /** transform: for every token index, every transformer in $items order. */
    method Transform(tokenCount: nat) returns (calls: seq<Call>)
      ensures |calls| == tokenCount * |items|
      ensures forall k :: 0 <= k < |calls| ==> calls[k] == Call(k / |items|, items[k % |items|])
    {
      var m := |items|;
      calls := [];
      var index := 0;
      while index < tokenCount
        invariant 0 <= index <= tokenCount
        invariant |calls| == index * m
        invariant forall k :: 0 <= k < |calls| ==> calls[k] == Call(k / m, items[k % m])
      {
        var j := 0;
        while j < m
          invariant 0 <= j <= m
          invariant |calls| == index * m + j
          invariant forall k :: 0 <= k < |calls| ==> calls[k] == Call(k / m, items[k % m])
        {
          RowColumn(index, j, m);
          calls := calls + [Call(index, items[j])];
          j := j + 1;
        }
        assert (index + 1) * m == index * m + m;
        index := index + 1;
      }
    }

    /** addCustomToken: a taken value throws LogicException before any change. */
    method AddCustomToken(value: int, name: string) returns (outcome: Outcome)
      modifies this`customTokens
      ensures (customTokens, outcome) == AddEntry(old(customTokens), value, name)
      ensures outcome.Pass? <==> !old(HasCustomToken(value))
      ensures outcome.Pass? ==> GetCustomToken(value) == Ok(name)
      ensures forall v :: v != value ==> GetCustomToken(v) == old(GetCustomToken(v))
      ensures outcome.Fail? ==> customTokens == old(customTokens)
    {
      if HasCustomToken(value) {
        outcome := Fail(LogicException(name, value, GetCustomToken(value).value));
        return;
      }
      customTokens := customTokens[value := name];
      outcome := Pass;
    }

    /** The foreach of registerTransformer over the custom token names, each
        already defined in constants; the first exception ends it. */
    method AddCustomTokens(constants: map<string, int>, names: seq<string>) returns (outcome: Outcome)
      requires AllDefined(constants, names)
      modifies this`customTokens
      ensures (customTokens, outcome) == AddAll(old(customTokens), constants, names)
    {
      ghost var added := AddAll(customTokens, constants, names);
      var i := 0;
      outcome := Pass;
      while i < |names| && outcome.Pass?
        modifies this`customTokens
        decreases |names| - i, if outcome.Pass? then 1 else 0
        invariant 0 <= i <= |names|
        invariant outcome.Pass? ==> AddAll(customTokens, constants, names[i..]) == added
        invariant outcome.Fail? ==> (customTokens, outcome) == added
      {
        AddAllUnfold(customTokens, constants, names, i);
        outcome := AddCustomToken(constants[names[i]], names[i]);
        if outcome.Pass? {
          i := i + 1;
        }
      }
      if outcome.Pass? {
        assert names[i..] == [];
      }
    }

    /** registerTransformer: append when PHP_VERSION_ID suffices, define the
        transformer's custom tokens, then add every one of them. */
    method RegisterTransformer(t: Transformer, g: Globals, phpVersionId: int) returns (outcome: Outcome)
      requires g.Valid()
      modifies this, g
      ensures g.Valid()
      ensures (State(g), outcome) == RegisterStep(old(State(g)), t, phpVersionId)
      ensures items == if phpVersionId >= t.requiredPhpVersionId then old(items) + [t] else old(items)
      ensures forall n :: n in t.customTokenNames ==> n in g.constants
      ensures outcome.Pass? <==> CanAddAll(old(customTokens), g.constants, t.customTokenNames)
      ensures outcome.Pass? ==> forall n :: n in t.customTokenNames ==> GetCustomToken(g.constants[n]) == Ok(n)
    {
      ghost var s0 := old(State(g));
      if phpVersionId >= t.requiredPhpVersionId {
        items := items + [t];
      }
      g.RegisterCustomTokens(t);
      var names := t.customTokenNames;
      outcome := AddCustomTokens(g.constants, names);
      assert State(g) == RegisterStep(s0, t, phpVersionId).0;
      AddAllSucceedsIff(s0.customTokens, g.constants, names);
    }

    /** registerBuiltInTransformers: the static $registered guard, set before
        the loop; the directory scan is replaced by the list builtIns. */
    method RegisterBuiltInTransformers(statics: Statics, g: Globals, phpVersionId: int, builtIns: seq<Transformer>)
      returns (outcome: Outcome)
      requires g.Valid() && statics.Valid()
      modifies this, g, statics`registered, statics`bodyRuns
      ensures g.Valid() && statics.Valid() && statics.registered
      ensures old(statics.registered) ==>
        outcome == Pass && State(g) == old(State(g)) && statics.bodyRuns == old(statics.bodyRuns)
      ensures !old(statics.registered) ==>
        (State(g), outcome) == RegisterAll(old(State(g)), builtIns, phpVersionId)
    {
      if statics.registered {
        return Pass;
      }
      statics.registered := true;
      statics.bodyRuns := statics.bodyRuns + 1;
      ghost var reg := RegisterAll(old(State(g)), builtIns, phpVersionId);
      var i := 0;
      outcome := Pass;
      while i < |builtIns| && outcome.Pass?
        modifies this, g
        decreases |builtIns| - i, if outcome.Pass? then 1 else 0
        invariant 0 <= i <= |builtIns|
        invariant g.Valid()
        invariant outcome.Pass? ==> RegisterAll(State(g), builtIns[i..], phpVersionId) == reg
        invariant outcome.Fail? ==> (State(g), outcome) == reg
      {
        RegisterAllUnfold(State(g), builtIns, phpVersionId, i);
        outcome := RegisterTransformer(builtIns[i], g, phpVersionId);
        if outcome.Pass? {
          i := i + 1;
        }
      }
      if outcome.Pass? {
        assert builtIns[i..] == [];
      }
    }

    /** The constructor's usort by descending priority. The sorting algorithm
        is the PHP runtime's; only order and permutation are claimed. */
    method SortItems()
      modifies this`items
      ensures NonIncreasingPriority(items)
      ensures multiset(items) == multiset(old(items))
    {
      var src := items;
      var sorted: seq<Transformer> := [];
      var i := 0;
      while i < |src|
        invariant 0 <= i <= |src|
        invariant NonIncreasingPriority(sorted)
        invariant multiset(sorted) == multiset(src[..i])
      {
        sorted := InsertByPriority(sorted, src[i]);
        assert src[..i + 1] == src[..i] + [src[i]];
        i := i + 1;
      }
      assert src[..i] == src;
      items := sorted;
    }

    /** __construct: register the built-in transformers, then sort. An
        exception from registration skips the sort. */
    method Construct(statics: Statics, g: Globals, phpVersionId: int, builtIns: seq<Transformer>)
      returns (outcome: Outcome)
      requires g.Valid() && statics.Valid()
      modifies this, g, statics`registered, statics`bodyRuns
      ensures g.Valid() && statics.Valid() && statics.registered
      ensures old(statics.registered) ==>
        && outcome == Pass
        && customTokens == old(customTokens) && g.Value() == old(g.Value())
        && NonIncreasingPriority(items) && multiset(items) == multiset(old(items))
      ensures !old(statics.registered) ==>
        var reg := RegisterAll(old(State(g)), builtIns, phpVersionId);
        && outcome == reg.1
        && customTokens == reg.0.customTokens && g.Value() == reg.0.globals
        && (outcome.Pass? ==> NonIncreasingPriority(items) && multiset(items) == multiset(reg.0.items))
        && (outcome.Fail? ==> items == reg.0.items)
    {
      outcome := RegisterBuiltInTransformers(statics, g, phpVersionId, builtIns);
      if outcome.Fail? {
        return;
      }
      SortItems();
    }
  }

  /** The function-level statics: create()'s $instance and
      registerBuiltInTransformers()'s $registered. bodyRuns counts how often
      the registration body has been entered. */
  class Statics {
    var instance: Transformers?
    var registered: bool
    ghost var bodyRuns: nat

    /** The registration body has run once if the flag is set, never otherwise. */
    ghost predicate Valid()
      reads this
    {
      bodyRuns == if registered then 1 else 0
    }

    constructor ()
      ensures Valid() && instance == null && !registered
    {
      instance := null;
      registered := false;
      bodyRuns := 0;
    }

    /** create: construct on the first call, then always the same instance.
        A constructor that throws leaves $instance null but $registered set,
        so the next call builds an instance with no transformers. */
    method Create(g: Globals, phpVersionId: int, builtIns: seq<Transformer>) returns (r: Result<Transformers>)
      requires Valid() && g.Valid()
      modifies this, g
      ensures Valid() && g.Valid()
      ensures r.Ok? ==> instance == r.value
      ensures r.Err? ==> instance == null && r.error.LogicException?
      ensures old(instance) == null ==> registered
      ensures old(instance) != null ==>
        && r.Ok? && r.value == old(instance)
        && registered == old(registered) && bodyRuns == old(bodyRuns)
        && g.Value() == old(g.Value())
      ensures old(instance) == null && !old(registered) ==>
        var reg := RegisterAll(RegistryState([], map[], old(g.Value())), builtIns, phpVersionId);
        && (r.Err? <==> reg.1.Fail?)
        && (r.Err? ==> r.error == reg.1.error)
        && g.Value() == reg.0.globals
        && (r.Ok? ==>
              && fresh(r.value)
              && r.value.customTokens == reg.0.customTokens
              && NonIncreasingPriority(r.value.items)
              && multiset(r.value.items) == multiset(Supported(builtIns, phpVersionId)))
      ensures old(instance) == null && old(registered) ==>
        && r.Ok? && fresh(r.value)
        && r.value.items == [] && r.value.customTokens == map[]
        && g.Value() == old(g.Value())
    {
      if instance == null {
        var t := new Transformers.Empty();
        var o := t.Construct(this, g, phpVersionId, builtIns);
        RegisterAllItems(RegistryState([], map[], old(g.Value())), builtIns, phpVersionId);
        if o.Fail? {
          r := Err(o.error);
          return;
        }
        instance := t;
      }
      r := Ok(instance);
    }
  }

  /** Two calls of create(): after a successful first call the second returns
      the same object; after a failed first call the second returns an empty
      instance, because the registration flag is already set. The statics'
      invariant (the registration body has run at most once) holds after both. */
  method CreateTwice(statics: Statics, g: Globals, phpVersionId: int, builtIns: seq<Transformer>)
    returns (first: Result<Transformers>, second: Result<Transformers>)
    requires statics.Valid() && g.Valid()
    modifies statics, g
    ensures first.Ok? ==> second == first
    ensures first.Err? ==> second.Ok? && second.value.items == [] && second.value.customTokens == map[]
    ensures statics.Valid() && statics.bodyRuns <= 1
  {
    first := statics.Create(g, phpVersionId, builtIns);
    ghost var between := g.Value();
    second := statics.Create(g, phpVersionId, builtIns);
    assert first.Ok? ==> g.Value() == between;
  }
}
