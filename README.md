# tdd-helpers: dependency mocking and static-call helpers, modelled in Dafny

This project models the core of the `lucatume/tdd-helpers` PHP library. The library is vendored by the AntarticAuction site. The core has four parts:

- **Dependency resolver** (`tad_DependencyMocker`), a fluent builder.
  - It holds a class name, a method selection, a notation and a table of extra methods.
  - `getMocks` / `getMocksArray` read the `@depends` tags of the selected methods' doc comments.
  - They return one mock per distinct dependency name, keyed by that name.
  - A mock stubs the type's public methods followed by its extra methods, each once.
- **Self-mocking mixin** (`tad_TestableObject`): guard checks, then the resolver on the called class with one method selected.
- **Late-static-binding registry** (`tad_Static`): a parent → child table, and the rule by which `call` picks the class that receives a static call.
- **Static-call stub** (`tad_StaticMocker`): a name → return-value table plus an optional listener that takes the calls it has a method for.

Reflection is an input value, `Php.Runtime`. It holds:

- the declared classes;
- each reflectable type's public method names;
- each existing method's doc comment.

A mock is the pair of a type name and the methods it stubs. An exception is a `Failure` carrying the exception class and its code.

Files, one module each:

- `wrappers.dfy` (`Wrappers`): `Option` and `Result`.
- `php.dfy` (`Php`): the PHP built-ins the core uses.
  - `explode`, `trim` and `array_unique`;
  - string truthiness;
  - ordered arrays and `stdClass` property order, as `Dict`;
  - the reflection input.
- `doc_tags.dfy` (`DocTags`): the active tag and the parse of one comment line.
- `dependency_mocker.dfy` (`DependencyMocking`): the builder as a class.
  - Its fields are `className`, `methodName`, `notation` and `extraMethods`.
  - The loops of `getMocksObjectOrArray` are methods proved against the functions `CollectNames`, `ResolveOperations` and `BuildMocks`.
- `testable_object.dfy` (`SelfMocking`): the mixin as pure functions, plus `ViaResolver`, which runs the builder and is proved equal to them.
- `static_registry.dfy` (`LateStaticBinding`): the registry as a class over `map<string, Option<string>>`.
- `static_mocker.dfy` (`StaticCallStubs`): the stub as a class holding the table and the listener.

Where the code and its documentation disagree, the model follows the code:

- A notation of `"0"` is PHP-false, so it falls back to `@depends`, like an empty one (`DocTags.Tag`).
- The constructor's `$extraMethods` argument is never applied: it tests an undefined `$methods` instead (`DependencyMocking.DependencyMocker.New`).
- `on(...)` passes on only the class name (`DependencyMocking.DependencyMocker.On`).
- The mixin's doc comment allows an array of method names, but the code rejects any non-string with code 1 (`SelfMocking.GetMocksObjectOrArrayFor`).
- `tad_Static::reset($p)` leaves `$p` as a key holding null. A later `call` on `$p` therefore throws instead of reaching the parent's own method (`LateStaticBinding.ClearedOneBlocksParent`).

## Model

| member | source | states |
|---|---|---|
| Php.IndexOf | vendor/lucatume/tdd-helpers/src/tad_DependencyMocker.php:121 | the first position where the tag occurs in the line, or none when it does not occur |
| Php.Explode | vendor/lucatume/tdd-helpers/src/tad_DependencyMocker.php:119-123 | `explode` gives at least one piece, and more than one exactly when the delimiter occurs. No piece contains the delimiter, and every character of a piece comes from the input |
| Php.JoinExplode | vendor/lucatume/tdd-helpers/src/tad_DependencyMocker.php:119 | joining the pieces of `explode` with the delimiter gives back the input |
| Php.ExplodeJoin | vendor/lucatume/tdd-helpers/src/tad_DependencyMocker.php:123 | for a one-character delimiter, `explode` undoes joining pieces that do not contain it |
| Php.ExplodeNoEmptyPieces | vendor/lucatume/tdd-helpers/src/tad_DependencyMocker.php:122-123 | splitting a non-empty string with no doubled, leading or trailing delimiter yields no empty piece |
| Php.Trim | vendor/lucatume/tdd-helpers/src/tad_DependencyMocker.php:122 | `trim` returns the contiguous part of its input left between a strippable prefix and a strippable suffix. Strippable means space, tab, newline, carriage return, NUL or vertical tab. The result is empty or has kept characters at both ends, and it is empty exactly when every character is strippable. Inner characters, tabs included, are kept |
| Php.TrimOfPadded | vendor/lucatume/tdd-helpers/src/tad_DependencyMocker.php:122 | trimming strippable padding in front of a part whose ends are kept gives back exactly that part |
| Php.TrimIdempotent | vendor/lucatume/tdd-helpers/src/tad_DependencyMocker.php:122 | trimming twice is trimming once |
| Php.TrimKeepsNoDoubled | vendor/lucatume/tdd-helpers/src/tad_DependencyMocker.php:122 | trimming keeps the "no doubled character" property that collapsing established |
| Php.Unique | vendor/lucatume/tdd-helpers/src/tad_DependencyMocker.php:149 | `array_unique` yields no repeats and the same set of elements |
| Php.UniquePrefix | vendor/lucatume/tdd-helpers/src/tad_DependencyMocker.php:140-149 | de-duplicating a concatenation starts with the de-duplicated first part (first occurrences are kept) |
| Php.UniqueOfDistinct | vendor/lucatume/tdd-helpers/src/tad_DependencyMocker.php:149 | a list without repeats is left unchanged |
| Php.EmptyDict | vendor/lucatume/tdd-helpers/src/tad_DependencyMocker.php:144 | a fresh `stdClass` has no properties |
| Php.Assign | vendor/lucatume/tdd-helpers/src/tad_DependencyMocker.php:146 | setting a property keeps keys distinct and the key order consistent with the entries. The key then holds the new value and other keys are unchanged. An existing key keeps its place; a new key goes last |
| DocTags.Tag | vendor/lucatume/tdd-helpers/src/tad_DependencyMocker.php:109 | the tag is '@' followed by the notation, or `@depends` when the notation is unset, "" or "0" |
| DocTags.SkipSeparators | vendor/lucatume/tdd-helpers/src/tad_DependencyMocker.php:122 | a run of separators is skipped and the non-separator characters are kept |
| DocTags.CollapseSeparators | vendor/lucatume/tdd-helpers/src/tad_DependencyMocker.php:122 | the `preg_replace` leaves no separator except single spaces, never two spaces in a row, and the same non-separator characters in order. A leading run becomes one space; a tab is kept |
| DocTags.CollapseAroundKept | vendor/lucatume/tdd-helpers/src/tad_DependencyMocker.php:122 | around a kept (non-separator) character the two sides are collapsed on their own and the character stays where it is |
| DocTags.CollapseAppend | vendor/lucatume/tdd-helpers/src/tad_DependencyMocker.php:122 | before a part that starts with a kept character, the collapse of a concatenation is the concatenation of the collapses |
| DocTags.CollapseRun | vendor/lucatume/tdd-helpers/src/tad_DependencyMocker.php:122 | a non-empty run of separators, followed by a kept character or by nothing, becomes exactly one space |
| DocTags.KeptPrefix | vendor/lucatume/tdd-helpers/src/tad_DependencyMocker.php:122 | a separator-free prefix passes through the collapse unchanged |
| DocTags.CollapseJoin | vendor/lucatume/tdd-helpers/src/tad_DependencyMocker.php:122 | separator-free names listed with ", " collapse to the same names with single spaces between them |
| DocTags.BlankCollapse | vendor/lucatume/tdd-helpers/src/tad_DependencyMocker.php:122 | the collapse is all white space exactly when its input is all separators and white space |
| DocTags.CollapseFixedPoint | vendor/lucatume/tdd-helpers/src/tad_DependencyMocker.php:122 | a string already in collapsed form is unchanged |
| DocTags.CollapseIdempotent | vendor/lucatume/tdd-helpers/src/tad_DependencyMocker.php:122 | collapsing twice is collapsing once |
| DocTags.LineNames | vendor/lucatume/tdd-helpers/src/tad_DependencyMocker.php:121-127 | a line declares names exactly when it contains the tag |
| DocTags.LineNamesAfterFirstTag | vendor/lucatume/tdd-helpers/src/tad_DependencyMocker.php:121-123 | the names come from the text between the first tag occurrence and any second one; what follows a second tag is dropped |
| DocTags.LineNamesShape | vendor/lucatume/tdd-helpers/src/tad_DependencyMocker.php:122-123 | a name has no comma, semicolon, parenthesis or space. Either the line yields the single empty name, or no name it yields is empty |
| DocTags.LineNamesEmptyName | vendor/lucatume/tdd-helpers/src/tad_DependencyMocker.php:121-123 | a tagged line yields the single empty name exactly when its text between the first tag and any second one is only separators and white space |
| DocTags.LineNamesRoundTrip | vendor/lucatume/tdd-helpers/src/tad_DependencyMocker.php:121-123 | a line with the tag, a space and names listed with ", " declares exactly those names, in order. The names must be non-empty, with no separator, no `@` and no white space at either end, and the text before the tag must hold no `@` |
| DocTags.TabAfterCommaKept | vendor/lucatume/tdd-helpers/src/tad_DependencyMocker.php:122-123 | a tab is not a separator: after ",\t" the tab is kept at the head of the next name, so `A,\tB` declares `A` and a tab followed by `B` |
| DocTags.BareTagLine | vendor/lucatume/tdd-helpers/src/tad_DependencyMocker.php:121-123 | a line whose first tag occurrence ends the line declares exactly one name, the empty one |
| DocTags.BareDependsLine | vendor/lucatume/tdd-helpers/src/tad_DependencyMocker.php:121-123 | the comment line ` * @depends` declares the single empty name |
| DocTags.LinesNames | vendor/lucatume/tdd-helpers/src/tad_DependencyMocker.php:120-128 | a comment's lines declare no name exactly when no line contains the tag |
| DocTags.LinesNamesHaveNoSeparators | vendor/lucatume/tdd-helpers/src/tad_DependencyMocker.php:120-128 | no name gathered from any line contains a separator |
| DocTags.DocNames | vendor/lucatume/tdd-helpers/src/tad_DependencyMocker.php:118-120 | a doc comment, split at newlines, declares no name exactly when none of its lines contains the tag, and no declared name contains a separator |
| DocTags.BareTagComment | vendor/lucatume/tdd-helpers/src/tad_DependencyMocker.php:118-123 | a one-line comment whose first tag ends it declares the single empty name |
| DependencyMocking.ScannedMethods | vendor/lucatume/tdd-helpers/src/tad_DependencyMocker.php:110-114 | the constructor alone when no method is selected, the one name when a string was given, and the array as it is otherwise; the list is empty only for an empty array |
| DependencyMocking.SelectionOf | vendor/lucatume/tdd-helpers/src/tad_DependencyMocker.php:95-102 | a string or an array is accepted as it is; anything else is InvalidArgumentException code 1 |
| DependencyMocking.ValidatedClassName | vendor/lucatume/tdd-helpers/src/tad_DependencyMocker.php:29-35 | a non-string class name is code 1, a missing class is code 2, and otherwise the name is kept |
| DependencyMocking.CollectNames | vendor/lucatume/tdd-helpers/src/tad_DependencyMocker.php:116-129 | the scan succeeds exactly when every scanned method exists. It fails with a missing method of that class |
| DependencyMocking.CollectNamesFirstMissing | vendor/lucatume/tdd-helpers/src/tad_DependencyMocker.php:116-117 | the error names the first scanned method that does not exist |
| DependencyMocking.CollectNamesWithoutTags | vendor/lucatume/tdd-helpers/src/tad_DependencyMocker.php:116-129 | methods without tag lines contribute no names |
| DependencyMocking.SingleMethodNames | vendor/lucatume/tdd-helpers/src/tad_DependencyMocker.php:113-129 | one scanned method contributes exactly the names of its own comment |
| DependencyMocking.ResolveOperations | vendor/lucatume/tdd-helpers/src/tad_DependencyMocker.php:131-141 | succeeds exactly when every name is a class or interface. Each name then maps to its public methods followed by the extra methods registered under exactly that name. Otherwise it fails with a missing class among the names |
| DependencyMocking.ResolveOperationsFirstMissing | vendor/lucatume/tdd-helpers/src/tad_DependencyMocker.php:133-135 | the error names the first name that is no class or interface |
| DependencyMocking.BuildMocks | vendor/lucatume/tdd-helpers/src/tad_DependencyMocker.php:143-151 | the keys are the names without repeats, in first-seen order. Each key holds a mock of that name whose methods are its operations de-duplicated |
| DependencyMocking.Resolve | vendor/lucatume/tdd-helpers/src/tad_DependencyMocker.php:107-156 | succeeds exactly when every scanned method exists and every declared name is a type. The keys are the declared names without repeats, in first-seen order. Each mock stubs its type's public methods and then its extra methods, each once |
| DependencyMocking.MockMethodsCover | vendor/lucatume/tdd-helpers/src/tad_DependencyMocker.php:140-149 | a mock's method list has no repeats and is exactly the public methods plus the extra methods. When the public methods are distinct they come first, in order |
| DependencyMocking.UnsetScansConstructor | vendor/lucatume/tdd-helpers/src/tad_DependencyMocker.php:110-114 | with no methods selected the result is the one for `forMethods('__construct')` |
| DependencyMocking.NoTagsNoMocks | vendor/lucatume/tdd-helpers/src/tad_DependencyMocker.php:116-151 | when no scanned comment has a tag line, the result is an empty set of mocks |
| DependencyMocking.EmptyNameNotAType | vendor/lucatume/tdd-helpers/src/tad_DependencyMocker.php:133-134 | when a method's first declared name is the empty one (a bare tag line) and "" is not a loadable type, resolving that method throws for "" before any mock is built |
| DependencyMocking.Shaped | vendor/lucatume/tdd-helpers/src/tad_DependencyMocker.php:152-155 | the object and the array shape carry the same key-to-mock pairs, or the same error |
| DependencyMocking.DependencyMocker.New | vendor/lucatume/tdd-helpers/src/tad_DependencyMocker.php:27-45 | the class-name checks come first and then a method argument goes through `forMethods`. A notation given is stored. The extra methods stay empty whatever is passed |
| DependencyMocking.DependencyMocker.On | vendor/lucatume/tdd-helpers/src/tad_DependencyMocker.php:170-173 | behaves as `new` on the class name alone: no methods selected, notation `depends`, no extra methods |
| DependencyMocking.DependencyMocker.SetNotation | vendor/lucatume/tdd-helpers/src/tad_DependencyMocker.php:55-59 | stores the notation and returns the builder |
| DependencyMocking.DependencyMocker.ForMethods | vendor/lucatume/tdd-helpers/src/tad_DependencyMocker.php:95-102 | stores a string or array unchanged and returns the builder. Anything else throws code 1 and leaves the selection as it was; no other field is touched |
| DependencyMocking.DependencyMocker.SetExtraMethods | vendor/lucatume/tdd-helpers/src/tad_DependencyMocker.php:190-194 | stores the table and returns the builder |
| DependencyMocking.DependencyMocker.GetMocks | vendor/lucatume/tdd-helpers/src/tad_DependencyMocker.php:70-73 | the object shape of the resolution of the current fields, with a well-formed registry |
| DependencyMocking.DependencyMocker.GetMocksArray | vendor/lucatume/tdd-helpers/src/tad_DependencyMocker.php:84-87 | the array shape of the same resolution |
| DependencyMocking.DependencyMocker.GetMocksObjectOrArray | vendor/lucatume/tdd-helpers/src/tad_DependencyMocker.php:107-156 | the three loops compute the resolution of the current fields in the requested shape |
| DependencyMocking.ScanMethods | vendor/lucatume/tdd-helpers/src/tad_DependencyMocker.php:116-129 | the loop over the scanned methods computes `CollectNames`, including its first-missing-method error |
| DependencyMocking.ScanComment | vendor/lucatume/tdd-helpers/src/tad_DependencyMocker.php:119-128 | the loop over one comment's lines computes `LinesNames` |
| DependencyMocking.AppendEach | vendor/lucatume/tdd-helpers/src/tad_DependencyMocker.php:124-126 | appending each name in turn appends the whole list in order |
| DependencyMocking.ReflectOperations | vendor/lucatume/tdd-helpers/src/tad_DependencyMocker.php:131-141 | the `array_map` computes `ResolveOperations`, including its first-missing-class error |
| DependencyMocking.CreateMocks | vendor/lucatume/tdd-helpers/src/tad_DependencyMocker.php:143-151 | the property loop computes `BuildMocks` |
| SelfMocking.GetMocksObjectOrArrayFor | vendor/lucatume/tdd-helpers/src/tad_TestableObject.php:52-73 | a non-string name (an array included) is code 1. A missing `get_called_class` is a RuntimeException with code 2. A method absent from the called class is code 3, and the checks run in that order. On success the keys are the de-duplicated `@depends` names of that one method, in the requested shape |
| SelfMocking.GetMocksFor | vendor/lucatume/tdd-helpers/src/tad_TestableObject.php:26-29 | a non-string name is code 1; on success the result is an object whose properties are the de-duplicated `@depends` names of that method of the called class |
| SelfMocking.GetMocksArrayFor | vendor/lucatume/tdd-helpers/src/tad_TestableObject.php:47-50 | a non-string name is code 1; on success the result is an array keyed by the de-duplicated `@depends` names of that method of the called class |
| SelfMocking.ShapesDifferOnly | vendor/lucatume/tdd-helpers/src/tad_TestableObject.php:26-50 | `getMocksFor` and `getMocksArrayFor` fail alike and otherwise hold the same pairs, as an object and as an array |
| SelfMocking.ViaResolver | vendor/lucatume/tdd-helpers/src/tad_TestableObject.php:61-72 | running the builder on the called class with `forMethods(methodName)` gives exactly the mixin's result |
| LateStaticBinding.Target | vendor/lucatume/tdd-helpers/src/tad_Static.php:133-150 | the parent receives the call exactly when it is not a key and defines the method. A key's child receives it exactly when it is set and defines the method. Otherwise BadMethodCallException code 1 is thrown, and a PHP-false receiver also throws |
| LateStaticBinding.Dispatch | vendor/lucatume/tdd-helpers/src/tad_Static.php:127-153 | the call goes to the chosen receiver with the arguments after the first two, in order |
| LateStaticBinding.RegisteredThenRead | vendor/lucatume/tdd-helpers/src/tad_Static.php:98-118 | a registration is read back, a later one for the same parent wins, and other parents are unchanged |
| LateStaticBinding.ClearedAll | vendor/lucatume/tdd-helpers/src/tad_Static.php:119-122 | after `reset()`, or `reset` of a PHP-false name, no parent has a child |
| LateStaticBinding.ClearedOne | vendor/lucatume/tdd-helpers/src/tad_Static.php:123-125 | `reset(p)` nulls p's child and keeps every other parent's |
| LateStaticBinding.ChildShadowsParent | vendor/lucatume/tdd-helpers/src/tad_Static.php:139-149 | with a child registered, only the child can receive the call, even when it lacks the method and the parent has it |
| LateStaticBinding.ClearedOneBlocksParent | vendor/lucatume/tdd-helpers/src/tad_Static.php:136-149 | after `reset(p)` a call on p throws and never falls back to p's own method |
| LateStaticBinding.ClearedAllRestoresParent | vendor/lucatume/tdd-helpers/src/tad_Static.php:136-137 | after `reset()` a parent defining the method receives the call |
| LateStaticBinding.StaticRegistry.GetClassExtending | vendor/lucatume/tdd-helpers/src/tad_Static.php:98-104 | null unless the key is present with a non-null child |
| LateStaticBinding.StaticRegistry.SetClassExtending | vendor/lucatume/tdd-helpers/src/tad_Static.php:115-118 | the table with that parent mapped to the child, with no check on the child |
| LateStaticBinding.StaticRegistry.Reset | vendor/lucatume/tdd-helpers/src/tad_Static.php:119-126 | empties the table for a missing or PHP-false argument; otherwise sets that key to null |
| LateStaticBinding.StaticRegistry.Call | vendor/lucatume/tdd-helpers/src/tad_Static.php:127-153 | computes `Dispatch` on the current table |
| LateStaticBinding.ResetOneScenario | vendor/lucatume/tdd-helpers/tests/unit/tad_StaticTest.php:99-112 | two parents registered and one reset: that one reads null and the other keeps its child |
| LateStaticBinding.ChildReceivesScenario | vendor/lucatume/tdd-helpers/tests/unit/tad_StaticTest.php:118-123 | a registered child that has the method receives the parent's call with its arguments |
| StaticCallStubs.StaticAnswer | vendor/lucatume/tdd-helpers/src/tad_StaticMocker.php:54-60 | a call is forwarded with the same arguments exactly when the listener is set and has the method. Otherwise the stored value is returned, or null for a name never added |
| StaticCallStubs.AddedValueIsReturned | vendor/lucatume/tdd-helpers/src/tad_StaticMocker.php:62-74 | with no listener the call returns the value added last for that name |
| StaticCallStubs.ListenerTakesPrecedence | vendor/lucatume/tdd-helpers/src/tad_StaticMocker.php:56-57 | a listener with the method takes the call whatever the table holds |
| StaticCallStubs.ListenerLacksMethod | vendor/lucatume/tdd-helpers/src/tad_StaticMocker.php:56-59 | a listener without the method is ignored and the table answers |
| StaticCallStubs.ResetAnswersNull | vendor/lucatume/tdd-helpers/src/tad_StaticMocker.php:82-86 | after a reset every call returns null |
| StaticCallStubs.StaticMocker.CallStatic | vendor/lucatume/tdd-helpers/src/tad_StaticMocker.php:54-60 | computes `StaticAnswer` on the current table and listener |
| StaticCallStubs.StaticMocker.AddMethod | vendor/lucatume/tdd-helpers/src/tad_StaticMocker.php:71-74 | the table with that name mapped to the value, overriding an earlier one |
| StaticCallStubs.StaticMocker.Reset | vendor/lucatume/tdd-helpers/src/tad_StaticMocker.php:82-86 | the table is empty and the listener is null |
| StaticCallStubs.StaticMocker.SetListener | vendor/lucatume/tdd-helpers/src/tad_StaticMocker.php:95-98 | the listener is the one given, or null |
| StaticCallStubs.StaticMocker.GetListener | vendor/lucatume/tdd-helpers/src/tad_StaticMocker.php:105-108 | the listener last set |
| StaticCallStubs.ListenerScenario | vendor/lucatume/tdd-helpers/tests/unit/tad_StaticMockerTest.php:17-35 | a listener with only `someMethod` gets that call with its argument, while `someOtherMethod` returns the null from the table |
| StaticCallStubs.ResetScenario | vendor/lucatume/tdd-helpers/tests/unit/tad_StaticMockerTest.php:36-51 | a listener set is read back and setting none clears it; set again, it is read back and a reset clears it; a value added afterwards is what the call returns |

## Left out

- Reflection is the input value `Php.Runtime`:
  - `ReflectionMethod::getDocComment` is a comment per existing method;
  - `ReflectionClass::getMethods(IS_PUBLIC)` is a list per reflectable type;
  - `class_exists` and `method_exists` are membership tests.
  - A method without a doc comment is modelled as having an empty one.
  - PHP's case-insensitive matching of class and method names is not modelled: names are compared exactly.
- PHPUnit's mock builder and `tad_SpoofTestCase`: a mock is only the pair of its type name and its stubbed methods. Expectations and stubbed return values on mocks belong to PHPUnit.
- The actual calls made by `call_user_func_array` and `call_user_method_array`.
  - `LateStaticBinding.Dispatch` returns the chosen receiver, method and arguments.
  - `StaticCallStubs.StaticAnswer` returns the listener, method and arguments.
  - The listener is its identity plus the set of methods `method_exists` finds on it.
- Values other than strings, arrays and null are one `Php.Value.Other` case. `forMethods` stores an array's elements as method names.
  - Non-string elements are not modelled.
  - A notation is a string or null.
  - A child class passed to `setClassExtending` is a string.
- `DependencyMocking.Resolve`: the pattern `[,;(; )(, )]+` is modelled by its character class (comma, semicolon, parentheses, space). Regular expressions in general are not modelled.
- `Php.Runtime` does not exclude "" from the loadable types, although `new ReflectionClass("")` always throws in PHP. `DependencyMocking.EmptyNameNotAType` states the outcome for a runtime where "" is not loadable.
- `StaticCallStubs.StaticAnswer` returns null for a name never added. PHP also raises an undefined-index notice there, which the model does not represent.
- The static state of `tad_Static` and `tad_StaticMocker` is one `StaticRegistry` / `StaticMocker` object that the caller passes around.
  - In PHP every subclass of `tad_StaticMocker` shares the same `self::$methods` and `self::$listener`.
  - The initially null `$methods` behaves like an empty table and is modelled as one.
- `StaticCallStubs.StaticMocker.AddMethod`: PHP's default return value `null` is passed explicitly as `None`.
- `tad_GlobalsAdapter`, `tad_FunctionsAdapter`, their interfaces and `tad_TestCase` are environment plumbing and PHPUnit wrappers. They are not part of this model.
- `tests/acceptance/SigninCept.php` is a browser acceptance script for the auction site and is not part of this model.
