# Custom-token and transformer registry of the PHP CS Fixer tokenizer

This project models the transformer registry of the PHP CS Fixer tokenizer
that the Tienda storefront bundles as a dependency, and proves properties of
it in Dafny 4.11.

- **AbstractTransformer** (`abstract_transformer.dfy`). A transformer is a
  value: its class name, its custom token names, an optional priority
  override and the PHP version it requires. `getPriority` and `getName` are
  functions. `registerCustomTokens` is a loop. It gives each custom token
  name that is not yet a defined constant the value `++$lastGeneratedCustomTokenValue`.
  This counter is static and starts at 10000. The class `Globals` holds that
  counter and PHP's constant table. Its method `RegisterCustomTokens` is
  proved against the function `DefineAll`.
- **Registry specification** (`registry_spec.dfy`). This file describes the state of a
  `Transformers` collection as a value: `$items`, `$customTokens` and the
  globals. `addCustomToken`, `registerTransformer` and the loop of
  `registerBuiltInTransformers` are written as functions of that value. The
  lemmas here state what registration guarantees. Registering one
  transformer completes exactly when none of its token values is already
  taken and no two of its names share a value. Two transformers that list the
  same custom token name cannot both be registered: the second
  `registerCustomTokens` keeps the name's old value, so `addCustomToken` throws
  `LogicException`. Conversely, names that are distinct and not yet defined
  always register into a registry whose registered values are at most the
  counter, as a new instance's empty map is. For a whole list of
  transformers, only these two directions are proved, not an exact condition.
- **Transformers** (`transformers.dfy`). The class `Transformers` has the fields `items`
  and `customTokens`. Its methods update them in place. The registration
  methods (`AddCustomToken`, `AddCustomTokens`, `RegisterTransformer`,
  `RegisterBuiltInTransformers`) are proved equal to the functions that
  specify them. `SortItems` and `Transform` are specified by the properties
  they establish: priority order and permutation, and the closed form of the
  call sequence. The class `Statics` holds the
  function-level statics `$instance` (of `create`) and `$registered` (of
  `registerBuiltInTransformers`), plus a ghost count of how often the
  registration body ran. Its invariant says that count is at most one.
- **Errors** (`errors.dfy`). `InvalidArgumentException` and `LogicException` are
  values of `Error`. A call that may throw returns `Result` or `Outcome`.
  State changes made before a throw stay, as they do in PHP.

Behaviour the model keeps from the code:

- `$registered` is set before the registration loop runs. If the first
  `create()` throws, `$instance` stays null, and a second `create()` builds a
  fresh instance with no transformers and no custom tokens. `Statics.Create`
  states both cases, and `CreateTwice` proves the two calls in sequence.
- `substr($segment, 0, -11)` on a segment shorter than eleven characters gives
  `false` or `""` depending on the PHP version. Either way the underscore
  conversion turns it into the empty string, so `NameStem` returns `""` there.
- `isset($this->customTokens[$value])` is key membership, because stored names
  are strings and never null.

## Model

| member | source | states |
|---|---|---|
| AbstractTransformer.GetPriority | tienda1.2/vendor/fabpot/php-cs-fixer/src/Tokenizer/AbstractTransformer.php:49-52 | the priority is 0 unless the transformer overrides it, and then it is the override |
| AbstractTransformer.LastSegment | tienda1.2/vendor/fabpot/php-cs-fixer/src/Tokenizer/AbstractTransformer.php:40-41 | the result is a suffix of the class name with no backslash, and it is either the whole name or starts right after a backslash (the last element of the explode) |
| AbstractTransformer.NameStem | tienda1.2/vendor/fabpot/php-cs-fixer/src/Tokenizer/AbstractTransformer.php:38-44 | the stem is the last segment minus its final 11 characters (empty when the segment is shorter); when the segment ends in "Transformer", stem + "Transformer" is the segment |
| AbstractTransformer.GetName | tienda1.2/vendor/fabpot/php-cs-fixer/src/Tokenizer/AbstractTransformer.php:38-44 | the name is the `camelCaseToUnderscore` parameter applied to the stem of the class name's last segment, and that segment is its own last segment |
| AbstractTransformer.GetNameIgnoresNamespace | tienda1.2/vendor/fabpot/php-cs-fixer/src/Tokenizer/AbstractTransformer.php:40-43 | a class name in any namespace gets the same name as its bare short name |
| AbstractTransformer.DefineAll | tienda1.2/vendor/fabpot/php-cs-fixer/src/Tokenizer/AbstractTransformer.php:57-64 | after the loop every listed name is defined; already defined names keep their values; the counter never decreases; a first name not yet defined gets counter + 1, so 10001 from the initial 10000 |
| AbstractTransformer.DefineAllFresh | tienda1.2/vendor/fabpot/php-cs-fixer/src/Tokenizer/AbstractTransformer.php:59-63 | every name the loop defines gets a value above the old counter and at most the new counter, and no two such names share a value |
| AbstractTransformer.DefineAllCount | tienda1.2/vendor/fabpot/php-cs-fixer/src/Tokenizer/AbstractTransformer.php:59-63 | the counter advances by exactly the number of newly defined names, so a name that is already defined does not advance it |
| AbstractTransformer.DefineAllNoop | tienda1.2/vendor/fabpot/php-cs-fixer/src/Tokenizer/AbstractTransformer.php:60 | when every name is already defined, the constant table and the counter are unchanged |
| AbstractTransformer.DefineAllIdempotent | tienda1.2/vendor/fabpot/php-cs-fixer/src/Tokenizer/AbstractTransformer.php:57-64 | a second registerCustomTokens with the same names changes nothing |
| AbstractTransformer.DefineAllKeepsFresh | tienda1.2/vendor/fabpot/php-cs-fixer/src/Tokenizer/AbstractTransformer.php:57-64 | values from the static counter stay above 10000 and pairwise distinct across calls, because each call generates values above all earlier ones |
| AbstractTransformer.Globals.constructor | tienda1.2/vendor/fabpot/php-cs-fixer/src/Tokenizer/AbstractTransformer.php:33 | the counter starts at 10000, the constant table is the given one, and no name has been generated yet |
| AbstractTransformer.Globals.RegisterCustomTokens | tienda1.2/vendor/fabpot/php-cs-fixer/src/Tokenizer/AbstractTransformer.php:57-64 | the new constant table and counter equal DefineAll of the old ones; every listed name is defined; old constants are unchanged; new values lie between the old and the new counter; the freshness invariant is kept |
| RegistrySpec.AddEntry | tienda1.2/vendor/fabpot/php-cs-fixer/src/Tokenizer/Transformers.php:135-147 | success exactly when the value is not a key; then exactly the entry value→name is added and every other entry is unchanged; on failure the map is unchanged and the error is LogicException(name, value, existing name) |
| RegistrySpec.AddAll | tienda1.2/vendor/fabpot/php-cs-fixer/src/Tokenizer/Transformers.php:124-126 | existing entries are never changed; every added entry maps a constant's value to its name; on success every name is stored under its constant's value; on failure the LogicException names a listed name whose value was already taken |
| RegistrySpec.AddAllSucceedsIff | tienda1.2/vendor/fabpot/php-cs-fixer/src/Tokenizer/Transformers.php:124-126 | the addCustomToken loop completes if and only if no name's value is already a key and no two names share a value |
| RegistrySpec.AddAllFailsOnTaken | tienda1.2/vendor/fabpot/php-cs-fixer/src/Tokenizer/Transformers.php:137-145 | a listed name whose value is already registered makes the loop throw |
| RegistrySpec.RegisterStep | tienda1.2/vendor/fabpot/php-cs-fixer/src/Tokenizer/Transformers.php:116-127 | every custom token name of the transformer is defined afterwards; on success each is registered under its value whether or not the transformer was appended; a failure is a LogicException naming one of the transformer's custom token names; earlier tokens and constants are unchanged |
| RegistrySpec.RegisterStepItems | tienda1.2/vendor/fabpot/php-cs-fixer/src/Tokenizer/Transformers.php:118-120 | one registration appends the transformer to the items exactly when the running PHP version is at least its required one |
| RegistrySpec.RegisterAll | tienda1.2/vendor/fabpot/php-cs-fixer/src/Tokenizer/Transformers.php:162-166 | the only exception the registration loop can end with is a LogicException |
| RegistrySpec.RegisterAllItems | tienda1.2/vendor/fabpot/php-cs-fixer/src/Tokenizer/Transformers.php:162-166 | a successful registration appends exactly the transformers whose required PHP version is at most the running one, in order |
| RegistrySpec.RepeatedNameRejected | tienda1.2/vendor/fabpot/php-cs-fixer/src/Tokenizer/Transformers.php:124-126 | a transformer that lists one custom token name twice cannot be registered |
| RegistrySpec.RegisterAllFailsOnTaken | tienda1.2/vendor/fabpot/php-cs-fixer/src/Tokenizer/Transformers.php:116-127 | once a name's value is registered, any later transformer listing that name makes registration fail |
| RegistrySpec.SharedNameRejected | tienda1.2/vendor/fabpot/php-cs-fixer/src/Tokenizer/Transformers.php:124-126 | two transformers that list the same custom token name make registration fail with LogicException, even though the second registerCustomTokens skips the define |
| RegistrySpec.DistinctNamesRegister | tienda1.2/vendor/fabpot/php-cs-fixer/src/Tokenizer/Transformers.php:152-167 | conversely, when all names are undefined and pairwise distinct and all registered values are at most the counter, registration completes |
| RegistrySpec.InsertByPriority | tienda1.2/vendor/fabpot/php-cs-fixer/src/Tokenizer/Transformers.php:48-50 | inserting into a sequence ordered by non-increasing priority keeps it ordered and adds exactly one element |
| Transformers.Transformers.Empty | tienda1.2/vendor/fabpot/php-cs-fixer/src/Tokenizer/Transformers.php:32-39 | a new collection has no transformers and no custom tokens |
| Transformers.Transformers.HasCustomToken | tienda1.2/vendor/fabpot/php-cs-fixer/src/Tokenizer/Transformers.php:92-95 | true exactly when the value is a key of `customTokens` |
| Transformers.Transformers.GetCustomToken | tienda1.2/vendor/fabpot/php-cs-fixer/src/Tokenizer/Transformers.php:76-95 | success exactly when hasCustomToken holds, and then the result is the stored name; otherwise InvalidArgumentException for the value |
| Transformers.Transformers.Transform | tienda1.2/vendor/fabpot/php-cs-fixer/src/Tokenizer/Transformers.php:102-109 | process is called exactly tokenCount × the number of items times; call k is for token index k / the number of items and transformer items[k % the number of items], so tokens form the outer loop and transformers run in items order |
| Transformers.Transformers.AddCustomToken | tienda1.2/vendor/fabpot/php-cs-fixer/src/Tokenizer/Transformers.php:135-147 | the new map and the outcome equal AddEntry; success exactly when the value was not registered, after which getCustomToken of the value gives the name and every other value looks up as before; a failure leaves the map unchanged |
| Transformers.Transformers.AddCustomTokens | tienda1.2/vendor/fabpot/php-cs-fixer/src/Tokenizer/Transformers.php:124-126 | the new map and the outcome equal AddAll over the names, so the loop stops at the first LogicException and keeps the entries added before it |
| Transformers.Transformers.RegisterTransformer | tienda1.2/vendor/fabpot/php-cs-fixer/src/Tokenizer/Transformers.php:116-127 | the new state equals RegisterStep; items gains the transformer exactly when the PHP version is at least its required one; all names are defined; success exactly when their values are free and distinct, and then each is registered |
| Transformers.Transformers.RegisterBuiltInTransformers | tienda1.2/vendor/fabpot/php-cs-fixer/src/Tokenizer/Transformers.php:152-167 | when $registered is already set, nothing changes and nothing is thrown; otherwise the flag is set and the new state equals RegisterAll over the given transformers |
| Transformers.Transformers.SortItems | tienda1.2/vendor/fabpot/php-cs-fixer/src/Tokenizer/Transformers.php:48-50 | items ends up ordered by non-increasing priority and is a permutation of the old items |
| Transformers.Transformers.Construct | tienda1.2/vendor/fabpot/php-cs-fixer/src/Tokenizer/Transformers.php:44-51 | registration as RegisterAll, then items is a permutation of the registered items in non-increasing priority order; a registration exception skips the sort |
| Transformers.Statics.constructor | tienda1.2/vendor/fabpot/php-cs-fixer/src/Tokenizer/Transformers.php:60 | $instance starts null and $registered false |
| Transformers.Statics.Create | tienda1.2/vendor/fabpot/php-cs-fixer/src/Tokenizer/Transformers.php:58-67 | a set $instance is returned unchanged with nothing else touched; after a call from an unset $instance, $registered is set; a first successful call yields a fresh instance whose items are a priority-ordered permutation of the supported transformers; failure is a LogicException and leaves $instance null; after a failed first call the next call returns an empty instance |
| Transformers.CreateTwice | tienda1.2/vendor/fabpot/php-cs-fixer/src/Tokenizer/Transformers.php:58-67 | after a successful first call the second returns the same object; after a failed first call the second returns an instance with no items and no custom tokens; the statics' invariant holds, so the registration body has run at most once |

## Left out

- The directory scan and the dynamic `new $class()` in `registerBuiltInTransformers` are filesystem I/O and reflection. They are replaced by a list of transformers passed in, in the scan's order.
- `PHP_VERSION_ID` is a parameter. PHP's global `define`/`defined`/`constant` table is the `constants` map of `Globals`.
- `Utils::camelCaseToUnderscore` is not part of this model. `GetName` takes it as a function parameter and applies it to `NameStem`.
- `Utils::cmpInt` is not part of this model. It is taken to be a three-way comparison of integers, so the comparator orders by descending priority.
- Transformers.Transformers.SortItems: `usort`'s algorithm and its order among equal priorities are the PHP runtime's. The model sorts by insertion and claims only order and permutation.
- Transformers.Transformers.Transform: the `Tokens` collection and the concrete transformers' `process` bodies are not part of this model. `Transform` returns the sequence of (index, transformer) calls it makes, not their effect on the tokens.
- `getCustomTokenNames` and `getRequiredPhpVersionId` belong to the concrete transformer classes, which are not part of this model. They are fields of the `Transformer` datatype.
- The exception messages are kept as the values they format, not as formatted strings.
- The storefront's `tienda1.1/Data/DataProducto.php` builds SQL text, sends it to a database connection, echoes a message, redirects and exits. Its effects happen in the database, so it is not modelled.
