/** AbstractTransformer: the base of every transformer. Its instance part is
    pure (name, priority); registerCustomTokens writes PHP's global constant
    table and the class-wide counter, modelled here by the class Globals. */
module AbstractTransformer {
  import opened Errors

  /** What a concrete transformer class declares about itself. */
  datatype Transformer = Transformer(
    className: string,                // fully qualified, e.g. PhpCsFixer\Tokenizer\Transformer\CurlyBraceTransformer
    customTokenNames: seq<string>,    // getCustomTokenNames()
    priorityOverride: Option<int>,    // Some(p) when the subclass overrides getPriority()
    requiredPhpVersionId: int         // getRequiredPhpVersionId()
  )

  /** Initial value of the static counter; the first generated token is one more. */
  const InitialCustomTokenValue: int := 10000

  const TransformerSuffix: string := "Transformer"

  /** getPriority: the base class answers 0; a subclass may override it. */
  function GetPriority(t: Transformer): (p: int)
    ensures t.priorityOverride.None? ==> p == 0
    ensures t.priorityOverride.Some? ==> p == t.priorityOverride.value
  {
    match t.priorityOverride
    case None => 0
    case Some(q) => q
  }

  /** Where the last segment of className[..end] starts: just after the last
      backslash before end, or 0 when there is none. */
  function SegmentStart(className: string, end: nat): (start: nat)
    requires end <= |className|
    ensures start <= end
    ensures forall k :: start <= k < end ==> className[k] != '\\'
    ensures start > 0 ==> className[start - 1] == '\\'
    decreases end
  {
    if end == 0 then 0
    else if className[end - 1] == '\\' then end
    else SegmentStart(className, end - 1)
  }

  /** end(explode('\\', className)): the text after the last backslash. */
  function LastSegment(className: string): (seg: string)
    ensures '\\' !in seg
    ensures |seg| <= |className| && seg == className[|className| - |seg|..]
    ensures |seg| < |className| ==> className[|className| - |seg| - 1] == '\\'
  {
    var start := SegmentStart(className, |className|);
    var seg := className[start..];
    assert forall k :: 0 <= k < |seg| ==> seg[k] == className[start + k];
    seg
  }

  /** substr(segment, 0, -strlen('Transformer')) on one segment. */
  function DropSuffixLength(seg: string): (stem: string)
    ensures |stem| == (if |seg| < |TransformerSuffix| then 0 else |seg| - |TransformerSuffix|)
    ensures stem <= seg
    ensures |seg| >= |TransformerSuffix| && seg[|seg| - |TransformerSuffix|..] == TransformerSuffix
      ==> stem + TransformerSuffix == seg
  {
    var k := |TransformerSuffix|;
    if |seg| < k then ""
    else
      var stem := seg[..|seg| - k];
      assert seg == stem + seg[|seg| - k..];
      stem
  }

  /** The last segment without its final eleven characters; a shorter
      segment gives the empty string. */
  function NameStem(className: string): (stem: string)
    ensures var seg := LastSegment(className);
      && |stem| == (if |seg| < |TransformerSuffix| then 0 else |seg| - |TransformerSuffix|)
      && stem <= seg
      && '\\' !in stem
    ensures var seg := LastSegment(className);
      |seg| >= |TransformerSuffix| && seg[|seg| - |TransformerSuffix|..] == TransformerSuffix
      ==> stem + TransformerSuffix == seg
  {
    var seg := LastSegment(className);
    var stem := DropSuffixLength(seg);
    PrefixHasNoBackslash(stem, seg);
    stem
  }

  lemma PrefixHasNoBackslash(prefix: string, s: string)
    requires prefix <= s && '\\' !in s
    ensures '\\' !in prefix
  {
    assert forall i :: 0 <= i < |prefix| ==> prefix[i] == s[i];
  }

  /** getName: the stem passed through Utils::camelCaseToUnderscore, which is
      not part of this model and is therefore a parameter. */
  function GetName(className: string, camelCaseToUnderscore: string -> string): (name: string)
    ensures name == camelCaseToUnderscore(NameStem(LastSegment(className)))
  {
    LastSegmentOfSegment(className);
    camelCaseToUnderscore(NameStem(className))
  }

  /** Only the short class name matters: a name in any namespace gets the
      same getName as the bare class name. */
  lemma GetNameIgnoresNamespace(namespace: string, shortName: string, camelCaseToUnderscore: string -> string)
    requires '\\' !in shortName
    ensures GetName(namespace + "\\" + shortName, camelCaseToUnderscore) == GetName(shortName, camelCaseToUnderscore)
  {
    var full := namespace + "\\" + shortName;
    var seg := LastSegment(full);
    assert full[|full| - |shortName| - 1] == '\\';
    assert full[|full| - |shortName|..] == shortName;
    assert seg == shortName;
    var own := LastSegment(shortName);
    assert |own| == |shortName|;
  }

  /** The namespace does not matter: the last segment is its own last segment. */
  lemma LastSegmentOfSegment(className: string)
    ensures LastSegment(LastSegment(className)) == LastSegment(className)
  {
    var seg := LastSegment(className);
    var again := LastSegment(seg);
    assert |again| == |seg|;
  }

  // ---------------------------------------------------------------------
  // registerCustomTokens, as a function of the global state it touches
  // ---------------------------------------------------------------------

  /** The process-wide state registerCustomTokens reads and writes: PHP's
      constant table and AbstractTransformer::$lastGeneratedCustomTokenValue. */
  datatype TokenGlobals = TokenGlobals(constants: map<string, int>, lastGenerated: int)

  /** One iteration: define the name with ++counter unless it is defined. */
  function DefineOne(g: TokenGlobals, name: string): TokenGlobals
  {
    if name in g.constants then g
    else TokenGlobals(g.constants[name := g.lastGenerated + 1], g.lastGenerated + 1)
  }

  /** The whole foreach of registerCustomTokens. */
  function DefineAll(g: TokenGlobals, names: seq<string>): (r: TokenGlobals)
    ensures r.lastGenerated >= g.lastGenerated
    ensures forall n :: n in g.constants ==> n in r.constants && r.constants[n] == g.constants[n]
    ensures forall n :: n in names ==> n in r.constants
    ensures names != [] && names[0] !in g.constants ==> r.constants[names[0]] == g.lastGenerated + 1
    decreases |names|
  {
    if names == [] then g
    else DefineAll(DefineOne(g, names[0]), names[1..])
  }

  /** Names defined by DefineAll get values above the old counter, at most
      the new counter, and no two of them share a value. */
  lemma {:induction false} DefineAllFresh(g: TokenGlobals, names: seq<string>)
    ensures var r := DefineAll(g, names);
      forall n :: n in r.constants && n !in g.constants ==>
        g.lastGenerated < r.constants[n] <= r.lastGenerated
    ensures var r := DefineAll(g, names);
      forall n1, n2 ::
        (n1 in r.constants && n1 !in g.constants && n2 in r.constants && n2 !in g.constants && n1 != n2)
        ==> r.constants[n1] != r.constants[n2]
    decreases |names|
  {
    if names != [] {
      var g1 := DefineOne(g, names[0]);
      DefineAllFresh(g1, names[1..]);
    }
  }

  /** Removing one more key from a key set removes exactly one element. */
  lemma OneMoreKey(before: set<string>, after: set<string>, all: set<string>, k: string)
    requires k !in before && after == before + {k} && after <= all
    ensures |all - before| == |all - after| + 1
  {
    assert all - before == (all - after) + {k};
  }

  /** The counter advances exactly once per newly defined name, so a name
      that is already defined does not advance it. */
  lemma {:induction false} DefineAllCount(g: TokenGlobals, names: seq<string>)
    ensures var r := DefineAll(g, names);
      r.lastGenerated - g.lastGenerated == |r.constants.Keys - g.constants.Keys|
    decreases |names|
  {
    var r := DefineAll(g, names);
    if names == [] {
      assert r.constants.Keys - g.constants.Keys == {};
    } else {
      var g1 := DefineOne(g, names[0]);
      DefineAllCount(g1, names[1..]);
      if names[0] !in g.constants {
        assert g1.constants.Keys == g.constants.Keys + {names[0]};
        assert g1.constants.Keys <= r.constants.Keys;
        OneMoreKey(g.constants.Keys, g1.constants.Keys, r.constants.Keys, names[0]);
      } else {
        assert g1 == g;
      }
    }
  }

  /** When every name is already defined nothing changes. */
  lemma {:induction false} DefineAllNoop(g: TokenGlobals, names: seq<string>)
    requires forall n :: n in names ==> n in g.constants
    ensures DefineAll(g, names) == g
    decreases |names|
  {
    if names != [] {
      assert DefineOne(g, names[0]) == g;
      DefineAllNoop(g, names[1..]);
    }
  }

  /** A second registerCustomTokens of the same names is a no-op. */
  lemma DefineAllIdempotent(g: TokenGlobals, names: seq<string>)
    ensures DefineAll(DefineAll(g, names), names) == DefineAll(g, names)
  {
    DefineAllNoop(DefineAll(g, names), names);
  }

  /** One step of the foreach, seen from the middle of the name list. */
  lemma DefineAllUnfold(g: TokenGlobals, names: seq<string>, i: nat)
    requires i < |names|
    ensures DefineAll(g, names[i..]) == DefineAll(DefineOne(g, names[i]), names[i + 1..])
  {
    assert names[i..][1..] == names[i + 1..];
  }

  /** The names in `generated` were all defined by registerCustomTokens: their
      values lie above 10000, at most the counter, and are pairwise distinct. */
  ghost predicate GeneratedFresh(g: TokenGlobals, generated: set<string>)
  {
    && InitialCustomTokenValue <= g.lastGenerated
    && generated <= g.constants.Keys
    && (forall n :: n in generated ==>
          InitialCustomTokenValue < g.constants[n] <= g.lastGenerated)
    && (forall n1, n2 :: n1 in generated && n2 in generated && n1 != n2 ==>
          g.constants[n1] != g.constants[n2])
  }

  /** registerCustomTokens keeps GeneratedFresh when the names it defines are
      added to `generated`: values generated by later calls are above every
      value generated before. */
  lemma DefineAllKeepsFresh(g: TokenGlobals, names: seq<string>, generated: set<string>)
    requires GeneratedFresh(g, generated)
    ensures var r := DefineAll(g, names);
      GeneratedFresh(r, generated + (r.constants.Keys - g.constants.Keys))
  {
    var r := DefineAll(g, names);
    var added := r.constants.Keys - g.constants.Keys;
    DefineAllFresh(g, names);
    assert forall n :: n in added ==> g.lastGenerated < r.constants[n] <= r.lastGenerated;
    assert forall n :: n in generated ==> r.constants[n] == g.constants[n];
  }

  /** The global state, updated in place. `generated` records the names this
      method has defined, so that the invariant can say their values are
      distinct and above 10000. */
  class Globals {
    var constants: map<string, int>
    var lastGeneratedCustomTokenValue: int
    ghost var generated: set<string>

    ghost predicate Valid()
      reads this
    {
      GeneratedFresh(Value(), generated)
    }

    function Value(): TokenGlobals
      reads this
    {
      TokenGlobals(constants, lastGeneratedCustomTokenValue)
    }

    /** A process whose constant table holds `predefined` and whose counter
        has its initial value. */
    constructor (predefined: map<string, int>)
      ensures Valid()
      ensures constants == predefined && lastGeneratedCustomTokenValue == InitialCustomTokenValue
      ensures generated == {}
    {
      constants := predefined;
      lastGeneratedCustomTokenValue := InitialCustomTokenValue;
      generated := {};
    }

    /** registerCustomTokens of transformer t. */
    method RegisterCustomTokens(t: Transformer)
      requires Valid()
      modifies this
      ensures Valid()
      ensures Value() == DefineAll(old(Value()), t.customTokenNames)
      ensures generated == old(generated) + (constants.Keys - old(constants).Keys)
      ensures forall n :: n in t.customTokenNames ==> n in constants
      ensures forall n :: n in old(constants) ==> n in constants && constants[n] == old(constants)[n]
      ensures forall n :: n in constants && n !in old(constants) ==>
        old(lastGeneratedCustomTokenValue) < constants[n] <= lastGeneratedCustomTokenValue
    {
      var names := t.customTokenNames;
      var i := 0;
      while i < |names|
        invariant 0 <= i <= |names|
        invariant DefineAll(Value(), names[i..]) == DefineAll(old(Value()), names)
        invariant generated == old(generated)
      {
        DefineAllUnfold(Value(), names, i);
        if names[i] !in constants {
          lastGeneratedCustomTokenValue := lastGeneratedCustomTokenValue + 1;
          constants := constants[names[i] := lastGeneratedCustomTokenValue];
        }
        i := i + 1;
      }
      assert names[i..] == [];
      DefineAllFresh(old(Value()), names);
      DefineAllKeepsFresh(old(Value()), names, generated);
      generated := generated + (constants.Keys - old(constants).Keys);
    }
  }
}
