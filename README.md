# dbus-deviation core in Dafny

A model of the core of `dbusapi`, the Python library at the heart of
dbus-deviation, with proofs of what that core promises. The core has four parts:

- **The type tree** (`dbusapi/types.py`) is the datatype `Types.DBusType`, with `TypeSignature` for a
  whole signature. `Render` is `__str__`; `TypeCode`, `Name` and `Alignment` are the
  constant attributes. Structural datatype equality plays the part of `__eq__`/`__ne__`.
- **The signature parser** (`dbusapi/typeparser.py`) is the class
  `SignatureParser.TypeParser`: a cursor field, an output list, recursive
  `ParseOne` with its `while` loops, and `Parse`. Each method is proved equal
  to a reference definition on values (`ParseOneAt`, `ParseStructAt`,
  `ParseDictAt`, `ParseTopAt`). Those functions return the tree built, the
  cursor position left behind and the one diagnostic recorded on failure.
  `SignatureLaws` proves the following about the reference definition:
  - the parser accepts exactly the spellings of well-shaped trees, and
    returns that very tree;
  - `str(parse(s)) == s` whenever every dict entry of the result has a key and a value;
  - a failed parse leaves exactly one diagnostic;
  - every case of the test suite holds.
- **The diagnostic log** (`dbusapi/log.py`) is the class `DiagnosticLog.Log`, with its issue list, registered
  codes and domain.
- **The node tree, without its XML reader** (`dbusapi/ast.py`), has two parts:
  - `AstNames` holds the four name validators. Each is written as a test on the
    first characters, and proved equal to "some prefix is in the regular
    language", which is what `re.match` gives.
  - `Ast` holds the node classes, as one class `AstNode` with a constant `kind`,
    plus the following:
    - insertion of children, with the `Node`, `Interface` and `Callable` overrides;
    - `index`, `comment`, `walk` and `pretty_name`.

    `AstScenarios` restates a selection of the expectations of the AST test suite on small
    trees, drawn from its name, parenting, traversal, signature and logging tests; the names
    of parentless nodes are covered in general by `Ast.RootName` and `Ast.RootArgumentName`.

The modules, in dependency order, are `Wrappers`, `Types`, `SignatureParser`,
`SignatureLaws`, `DiagnosticLog`, `AstNames`, `Ast` and `AstScenarios`. Each
lives in the file of the same name (`wrappers.dfy`, `types.dfy`,
`typeparser.dfy`, `signature_laws.dfy`, `log.dfy`, `ast_names.dfy`, `ast.dfy`,
`ast_scenarios.dfy`).

In expected strings, `Quoted(x)` stands for `x` between the typographic quotes U+2018 and
U+2019 that the messages use.

## Model

| member | source | states |
|---|---|---|
| Types.TypeCode | dbusapi/types.py:54-333 | the `type` attribute of each class; `BasicCodeRoundTrip` and `BasicCodesDistinct` prove the basic codes distinct and found again by the parser's chain |
| Types.Name | dbusapi/types.py:54-333 | the `name` attribute of each class; `EqualityIsStructural` proves it is one of the attributes equality compares |
| Types.Alignment | dbusapi/types.py:54-333 | the `alignment` attribute of each class; `AlignmentMatchesWireFormat` proves it agrees with the D-Bus marshaling table |
| Types.BasicOfCode | dbusapi/typeparser.py:68-95 | the chain of basic-code tests; `BasicOfCodeSound` and `BasicCodesAccepted` prove it accepts exactly the fourteen basic codes, each as the type carrying that code |
| Types.BasicOfCodeSound | dbusapi/typeparser.py:68-95 | a character the basic-code chain accepts yields a basic leaf whose type code is that character |
| Types.BasicCodeRoundTrip | dbusapi/types.py:54-266 | every basic type's code is one of the fourteen basic codes, and the chain maps that code back to the same type |
| Types.BasicCodesAccepted | dbusapi/typeparser.py:68-95 | the chain accepts a character exactly when it is one of `ybnqiuxtdsogvh` |
| Types.BasicCodesDistinct | dbusapi/types.py:54-266 | two different basic types have different codes |
| Types.EqualityIsStructural | dbusapi/types.py:38-43 | two types are equal exactly when code, name, alignment and members agree (class plus attribute dictionary), and `!=` is the negation |
| Types.AlignmentMatchesWireFormat | dbusapi/types.py:54-333 | every type's alignment is the one the D-Bus Specification's marshaling table gives for its code |
| Types.RenderAsWritten | dbusapi/types.py:298-339 | `str` of a type with `DictEntry.__str__` as written, recursing through members as Python does: where it does not raise, it gives the same text as the corrected `Render` |
| Types.RenderAllAsWritten | dbusapi/types.py:318-319 | the as-written rendering of a member list raises when a member's does, and otherwise gives the text `RenderAll` gives |
| Types.RenderSignatureAsWritten | dbusapi/types.py:355-357 | the as-written `str` of a signature: where it does not raise, it is `RenderSignature` |
| Types.AsWrittenRendersExactlyPaired | dbusapi/types.py:335-339 | on a well-shaped tree, the as-written rendering raises exactly when some dict entry, at any depth, lacks a key or a value |
| Types.AllAsWrittenRendersExactlyPaired | dbusapi/types.py:318-319 | the same for a list of well-shaped members |
| Types.ShortDictEntryRendersPlaceholders | dbusapi/types.py:298-301 | with fewer than two members the as-written rendering of a dict entry raises, while `Render` shows `?` for each missing member, as `Array` does |
| Types.Render | dbusapi/types.py:280-339 | `__str__` of one type; `SignatureLaws.RenderIsSpelling` proves it is the type's text whenever dict entries are paired, so parsing it gives the type back |
| Types.RenderAll | dbusapi/types.py:355-357 | `__str__` of a member list; `RenderAllAppend` proves it distributes over concatenation |
| Types.RenderSignature | dbusapi/types.py:355-357 | `str` of a signature; `SignatureLaws.RoundTrip` and `RenderedSignatureParses` prove it inverse to parsing in both directions |
| Types.RenderAllAppend | dbusapi/types.py:355-357 | rendering a signature is concatenation over its members, so rendering a concatenation is the concatenation of renderings |
| SignatureParser.ParseOneAt | dbusapi/typeparser.py:66-148 | one `_parse_one` step never moves the cursor backwards or past the end |
| SignatureParser.ParseStructAt | dbusapi/typeparser.py:109-124 | the struct loop keeps the cursor within the signature |
| SignatureParser.ParseDictAt | dbusapi/typeparser.py:125-144 | the dict loop keeps the cursor within the signature |
| SignatureParser.ParseTopAt | dbusapi/typeparser.py:163-173 | the top-level loop keeps the cursor within the signature |
| SignatureParser.ParseSignature | dbusapi/typeparser.py:150-179 | the value of `parse()`; `TypeParser.Parse` is proved to return it and `SignatureLaws.AcceptedLanguage` proves it succeeds exactly on the texts of shaped signatures |
| SignatureParser.ParseOutput | dbusapi/typeparser.py:150-179 | the output `parse()` leaves; `SignatureLaws.FailedParseReportsOnce` proves it is empty on success and one known message on failure |
| SignatureParser.TypeParser.GetOutputCodes | dbusapi/typeparser.py:41-47 | the codes `get_output_codes()` lists; `SignatureLaws.OutputCodesOmitInvalidType` proves the parser records a code outside that list |
| SignatureParser.TypeParser.constructor | dbusapi/typeparser.py:30-39 | a new parser holds the signature, an empty output and cursor 0 |
| SignatureParser.TypeParser.IssueOutput | dbusapi/typeparser.py:49-51 | appends exactly the one diagnostic to the output |
| SignatureParser.TypeParser.GetOutput | dbusapi/typeparser.py:53-55 | returns the output list |
| SignatureParser.TypeParser.GetNextCharacter | dbusapi/typeparser.py:57-64 | returns `signature[index]` and advances by one, or returns `None` at the end with the cursor unchanged; the cursor stays within the signature |
| SignatureParser.TypeParser.ParseOne | dbusapi/typeparser.py:66-148 | result, new cursor and new output are those of `ParseOneAt` at the old cursor, with at most the one failure diagnostic appended |
| SignatureParser.TypeParser.Parse | dbusapi/typeparser.py:150-179 | resets output and cursor, returns `ParseSignature(signature)`, leaves `ParseOutput(signature)`; returns `None` exactly when output is non-empty, and the output then has one entry |
| SignatureParser.ParseTwice | dbusapi/typeparser.py:159-160 | two successive `parse()` calls on one parser return the same value and leave the same output |
| SignatureLaws.SpellingStartsWithLead | dbusapi/typeparser.py:66-148 | the text of every type starts with the character the parser dispatches on, which is never `)` or `}` |
| SignatureLaws.SpellingAllAppend | dbusapi/typeparser.py:173 | the text of a concatenated member list is the concatenation of texts |
| SignatureLaws.ParseOneSpelled | dbusapi/typeparser.py:66-148 | what `_parse_one` builds is shaped, and its text is exactly the characters consumed |
| SignatureLaws.ParseStructSpelled | dbusapi/typeparser.py:109-124 | a struct the loop builds is shaped, and its members' text plus `)` is what was consumed |
| SignatureLaws.ParseDictSpelled | dbusapi/typeparser.py:125-144 | a dict entry the loop builds has at most two shaped members, whose text plus `}` is what was consumed |
| SignatureLaws.ParseTopSpelled | dbusapi/typeparser.py:163-173 | a successful top-level loop consumes the whole input and builds shaped members that spell it |
| SignatureLaws.StructStep | dbusapi/typeparser.py:111-123 | one turn of the struct loop after a member: the member is appended and the loop goes on |
| SignatureLaws.DictStep | dbusapi/typeparser.py:127-143 | one turn of the dict loop after a member: a third member is rejected with `Invalid dictionary declaration.` and not appended, otherwise it is appended |
| SignatureLaws.TopStep | dbusapi/typeparser.py:163-173 | one turn of the top-level loop after a member: the member is appended and the loop goes on |
| SignatureLaws.ParseOneOfSpelling | dbusapi/typeparser.py:66-148 | the text of a shaped type, whatever follows it, is parsed as that type and consumed exactly |
| SignatureLaws.ArrayOfSpelling | dbusapi/typeparser.py:96-108 | `a` followed by the text of a member is parsed as the one-member array, consuming exactly that text |
| SignatureLaws.StructOfSpelling | dbusapi/typeparser.py:109-124 | `(`, the members' text and `)` are parsed as that struct, zero members included |
| SignatureLaws.DictOfSpelling | dbusapi/typeparser.py:125-144 | `{`, up to two members' text and `}` are parsed as that dict entry |
| SignatureLaws.MemberOfSpelling | dbusapi/typeparser.py:111-143 | inside a loop, the text of a member never starts with a closing bracket, and it is parsed as that member |
| SignatureLaws.ParseStructOfSpelling | dbusapi/typeparser.py:109-124 | the struct loop over the members' text and `)` appends the members in order |
| SignatureLaws.ParseDictOfSpelling | dbusapi/typeparser.py:125-144 | the dict loop over at most two members' text and `}` appends them in order |
| SignatureLaws.ParseTopOfSpelling | dbusapi/typeparser.py:163-173 | the top-level loop over the members' text appends them in order and consumes all input |
| SignatureLaws.ParsedSignatureSpellsInput | dbusapi/typeparser.py:150-179 | on success the result is shaped and its text is exactly the input |
| SignatureLaws.SpelledSignatureParses | dbusapi/typeparser.py:150-179 | every shaped signature is parsed back from its text, with empty output |
| SignatureLaws.AcceptedLanguage | dbusapi/typeparser.py:150-179 | `parse()` succeeds exactly on the texts of shaped signatures |
| SignatureLaws.SpellingInjective | dbusapi/typeparser.py:150-179 | two shaped signatures with the same text are equal, so the parser's result is determined by the input |
| SignatureLaws.RenderIsSpelling | dbusapi/types.py:280-339 | for a shaped type whose dict entries all have two members, `str` is exactly its text |
| SignatureLaws.RenderAllIsSpellingAll | dbusapi/types.py:355-357 | the same for a member list |
| SignatureLaws.RoundTrip | dbusapi/typeparser.py:150-179 | `str(parse(s)) == s` whenever parsing succeeds and every dict entry in the result has a key and a value |
| SignatureLaws.RenderedSignatureParses | dbusapi/types.py:355-357 | the other direction: `parse(str(sig)) == sig` for every shaped signature with paired dict entries |
| SignatureLaws.ThirdDictMemberRejected | dbusapi/typeparser.py:133-143 | a dict entry is rejected right after the text of its third member, with cursor just past it |
| SignatureLaws.DictMemberStep | dbusapi/typeparser.py:133-143 | the dict loop meeting one member's text: it appends the member, or rejects a third one |
| SignatureLaws.ParseOneFailureKnown | dbusapi/typeparser.py:96-148 | a failing `_parse_one` step records one of the five parser messages |
| SignatureLaws.ParseStructFailureKnown | dbusapi/typeparser.py:109-124 | the same for the struct loop |
| SignatureLaws.ParseDictFailureKnown | dbusapi/typeparser.py:125-144 | the same for the dict loop |
| SignatureLaws.ParseTopFailureKnown | dbusapi/typeparser.py:163-173 | the same for the top-level loop |
| SignatureLaws.FailedParseReportsOnce | dbusapi/typeparser.py:175-179 | `parse()` fails exactly when output is non-empty, and a failure leaves exactly one of the five messages |
| SignatureLaws.RejectedUnknownCodes | dbusapi/tests/test_typeparser.py:46-68 | `?` and `ii)` fail with `Unknown type Quoted(c).` for the offending character |
| SignatureLaws.RejectedIncompleteArray | dbusapi/tests/test_typeparser.py:52-56 | `aa` fails with `Incomplete array declaration.` |
| SignatureLaws.RejectedIncompleteStruct | dbusapi/tests/test_typeparser.py:58-62 | `(ii` fails with `Incomplete structure declaration.` |
| SignatureLaws.RejectedThirdDictMember | dbusapi/tests/test_typeparser.py:70-74 | `a{suu}` fails with `Invalid dictionary declaration.` |
| SignatureLaws.RejectedIncompleteDicts | dbusapi/tests/test_typeparser.py:76-86 | `a{su` and `a{s` fail with `Incomplete dictionary declaration.` |
| SignatureLaws.AcceptedCase | dbusapi/tests/test_typeparser.py:93-97 | a shaped signature with paired dict entries is accepted from its rendering with empty output and renders back to it |
| SignatureLaws.AcceptedBasicSignatures | dbusapi/tests/test_typeparser.py:99-103 | `i` and `ii` are accepted as the expected trees and render back; the empty signature, accepted as no types, is a further case of this model's own |
| SignatureLaws.AcceptedUnsignedSignatures | dbusapi/tests/test_typeparser.py:108-112 | `u` and `uu` are accepted and render back |
| SignatureLaws.AcceptedSingleArraySignatures | dbusapi/tests/test_typeparser.py:114-121 | `ai` and `au` are accepted as one-member arrays and render back |
| SignatureLaws.AcceptedVariantSignatures | dbusapi/tests/test_typeparser.py:123-136 | `av` and `(v)` are accepted and render back |
| SignatureLaws.AcceptedArraySignatures | dbusapi/tests/test_typeparser.py:105-118 | `aiai` and `aai` are accepted and render back |
| SignatureLaws.AcceptedStructSignature | dbusapi/tests/test_typeparser.py:126-127 | `(iii)` is accepted and renders back |
| SignatureLaws.AcceptedStructPairSignature | dbusapi/tests/test_typeparser.py:129-130 | `(ii)(ii)` is accepted and renders back |
| SignatureLaws.AcceptedNestedStructSignature | dbusapi/tests/test_typeparser.py:132-133 | `(i(ii))` is accepted and renders back |
| SignatureLaws.AcceptedMixedStructSignature | dbusapi/tests/test_typeparser.py:138-139 | `(ius)` is accepted and renders back |
| SignatureLaws.AcceptedArrayOfStructSignature | dbusapi/tests/test_typeparser.py:141-142 | `a(ii)` is accepted and renders back |
| SignatureLaws.AcceptedDictSignature | dbusapi/tests/test_typeparser.py:144-145 | `a{us}` is accepted and renders back |
| SignatureLaws.AcceptedDictThenBasicSignature | dbusapi/tests/test_typeparser.py:147-148 | `a{us}i` is accepted and renders back |
| SignatureLaws.LenientDictEntries | dbusapi/typeparser.py:125-144 | `{}` and `a{s}` are accepted (no strict D-Bus rules), and `str` then shows `a{s?}` |
| SignatureLaws.AsWrittenDictEntryRaisesOnParsedTree | dbusapi/types.py:337-338 | the parser accepts `a{s}`, and `str` as written raises on the array it returns and on the whole signature |
| SignatureLaws.AsWrittenRoundTrip | dbusapi/types.py:335-357 | for an accepted signature, `str(parse(s))` as written raises exactly when some dict entry of the result lacks a key or a value, and otherwise gives `s` back |
| SignatureLaws.OutputCodesOmitInvalidType | dbusapi/typeparser.py:41-47 | `aa` records an `invalid-type` message, a code that `get_output_codes()` does not list |
| DiagnosticLog.Log.constructor | dbusapi/log.py:27-31 | a new log has no issues, no codes and domain `default` |
| DiagnosticLog.Log.RegisterIssueCode | dbusapi/log.py:33-42 | the code is added to the set and nothing else changes |
| DiagnosticLog.Log.CreateEntry | dbusapi/log.py:56-57 | the entry tuple `(None, domain, code, message)`; `LogIssue` is proved to append exactly it |
| DiagnosticLog.Log.LogIssue | dbusapi/log.py:44-57 | requires a registered code; appends exactly `(None, domain, code, message)` and keeps the earlier entries |
| DiagnosticLog.Log.Clear | dbusapi/log.py:59-61 | empties the issues; codes and domain are outside its frame and stay |
| DiagnosticLog.RegisterTwice | dbusapi/log.py:33-42 | registering a code twice has the effect of registering it once |
| DiagnosticLog.LogInOrder | dbusapi/log.py:44-53 | two issues logged in turn are kept in that order after the earlier ones |
| DiagnosticLog.ClearKeepsCodes | dbusapi/log.py:27-61 | after registering, logging twice and clearing, the issues are gone and one code and the domain remain |
| AstNames.IsValidAbsoluteObjectPath | dbusapi/ast.py:284-293 | the absolute path validator; `AbsolutePathIsPrefixMatch` proves it equal to `re.match` of its expression |
| AstNames.IsValidRelativeObjectPath | dbusapi/ast.py:295-305 | the relative path validator; `RelativePathIsPrefixMatch` proves it equal to `re.match` of its expression |
| AstNames.IsValidInterfaceName | dbusapi/ast.py:364-376 | the interface name validator; `InterfaceNameIsPrefixMatch` proves it equal to the length bound and `re.match` of its expression |
| AstNames.IsValidMemberName | dbusapi/ast.py:469-480 | the member name validator; `MemberNameIsPrefixMatch` proves it equal to the length bound and `re.match` of its expression |
| AstNames.WordRunEnd | dbusapi/ast.py:374-376 | the end of a run of `[A-Za-z0-9_]` characters: every character before it is a word character, the one at it is not |
| AstNames.AbsolutePathIsPrefixMatch | dbusapi/ast.py:284-293 | `is_valid_absolute_object_path(p)` holds exactly when `p == "/"` or some prefix of `p` matches `(/[A-Za-z0-9_]+)+` |
| AstNames.RelativePathIsPrefixMatch | dbusapi/ast.py:295-305 | `is_valid_relative_object_path(p)` holds exactly when some prefix matches `[A-Za-z0-9_]+(/[A-Za-z0-9_]+)*` |
| AstNames.InterfaceNameIsPrefixMatch | dbusapi/ast.py:364-376 | `is_valid_interface_name(n)` holds exactly when `len(n) <= 255` and some prefix matches the dotted-elements expression |
| AstNames.MemberNameIsPrefixMatch | dbusapi/ast.py:469-480 | `is_valid_name(n)` holds exactly when `len(n) <= 255` and some prefix matches `[A-Za-z_][A-Za-z0-9_]*` |
| AstNames.ElementEndsAtRunEnd | dbusapi/ast.py:374-376 | an element followed by a dot ends exactly where the first run of word characters ends |
| AstNames.RunEndFrom | dbusapi/ast.py:374-376 | a run of word characters from `i` ending at a non-word character at `k` ends at `k` |
| AstNames.InterfacePrefixWitness | dbusapi/ast.py:374-376 | an accepted interface name has a prefix in the interface-name language |
| AstNames.InterfacePrefixShape | dbusapi/ast.py:374-376 | a name with a prefix in that language has a dot after its first run of word characters and an element start after the dot |
| AstNames.ObjectPathExamples | dbusapi/tests/test_interfaceparser.py:86-112 | `/` and `/abs/N` are absolute paths, `//` and `rel/N` are not; `rel/N` and `N` are relative paths, `/abs/N` and the empty string are not |
| AstNames.InterfaceNameExamples | dbusapi/tests/test_interfaceparser.py:121-133 | `I.I` and `Some.Interface` are valid interface names; `0`, `I` and `I.` are not |
| AstNames.MemberNameExamples | dbusapi/tests/test_interfaceparser.py:148-173 | `M`, `AMethod` and `_9` are valid member names; `0M`, `*S` and the empty string are not |
| AstNames.MemberNameLengthLimit | dbusapi/ast.py:479-480 | 256 valid characters are refused and their 255-character prefix is accepted |
| Ast.NatToString | dbusapi/ast.py:584-586 | `%u` of an index is a non-empty string of decimal digits, one digit exactly below ten |
| Ast.NatToStringRoundTrip | dbusapi/ast.py:584-586 | the decimal text of an index reads back as that index |
| Ast.FindNamed | dbusapi/ast.py:187-191 | a dictionary lookup by name: found exactly when the name is taken, and then a contained node with that name |
| Ast.FirstIndex | dbusapi/ast.py:603 | `list.index`: a position holding the node, with no earlier occurrence |
| Ast.FirstIndexAppend | dbusapi/ast.py:217-220 | appending another child moves no existing argument's index |
| Ast.FirstIndexOfAppended | dbusapi/ast.py:217-220 | a child appended to a list it was not in has index equal to the old length |
| Ast.ArgumentAlwaysAppended | dbusapi/ast.py:459-462 | a method or signal never finds an argument a duplicate, and the appended argument's index is the old number of arguments |
| Ast.NameProblems | dbusapi/ast.py:270-281 | the issues the `Node` override logs for a child; `AstNode.Override` is proved to log exactly them |
| Ast.AstNode.Node | dbusapi/ast.py:238-268 | a node with the given optional name, no parent, no children and empty annotation, interface and node containers (the state every constructor below also leaves, as `BaseNode.__init__` at dbusapi/ast.py:51-73 sets it up) |
| Ast.AstNode.Interface | dbusapi/ast.py:317-358 | logs `interface-name` exactly when the name is non-empty and invalid; the interface is built either way |
| Ast.AstNode.Property | dbusapi/ast.py:400-419 | the type is what a fresh signature parser returns for the type string; access is kept |
| Ast.AstNode.Method | dbusapi/ast.py:491-509 | logs `method-name` exactly when the name is non-empty and not a valid member name |
| Ast.AstNode.Signal | dbusapi/ast.py:520-538 | logs `signal-name` exactly when the name is non-empty and not a valid member name |
| Ast.AstNode.Argument | dbusapi/ast.py:556-574 | a missing or empty direction becomes `in`; the type is the parser's result; no cached index |
| Ast.AstNode.Annotation | dbusapi/ast.py:620-630 | keeps name and value |
| Ast.AstNode.IsDuplicate | dbusapi/ast.py:206-207 | `_child_is_duplicate`: the child's name is taken in its container, and never for an argument (dbusapi/ast.py:459-462), as `ArgumentAlwaysAppended` proves; `AddChild` refuses exactly such a child |
| Ast.AstNode.AddChild | dbusapi/ast.py:122-124 | `add_child`: logs the node-name problems first, sets `node`/`interface`/`parent`; a duplicate is refused with one `duplicate-<kind>` entry and nothing else changes; otherwise the child is appended to `children` and its kind's container, and the walk grows by the child and its walk |
| Ast.AstNode.Override | dbusapi/ast.py:270-281 | under a node, a child node without a name logs `missing-attribute`, one whose name is not a relative path logs `node-name`, and `node` is set; under an interface `interface` is set |
| Ast.AstNode.BaseAddChild | dbusapi/ast.py:206-223 | sets `parent` first; a duplicate logs `Duplicate <kind> definition Quoted(pretty name).` and returns false with children and containers unchanged; otherwise appends to both and returns true |
| Ast.AstNode.Index | dbusapi/ast.py:594-604 | returns the cached index, else -1 without a parent, else the position in the parent's arguments, which it then caches |
| Ast.AstNode.Comment | dbusapi/ast.py:174-191 | the value of an `org.gtk.GDBus.DocString` annotation when one exists, otherwise the stored comment |
| Ast.EntriesAppend | dbusapi/log.py:53 | the entries logged for two diagnostic lists in turn are the entries of their concatenation |
| Ast.ArgumentIndex | dbusapi/ast.py:594-604 | the value `index` returns is never below -1 |
| Ast.ArgumentIndexIsPosition | dbusapi/ast.py:594-604 | with a cache that agrees with the parent, `index` is the position in `parent.arguments`, or -1 without a parent |
| Ast.PrettyName | dbusapi/ast.py:198-201 | `pretty_name` is `None` exactly for an unnamed node |
| Ast.ChainAfterReparent | dbusapi/ast.py:209-214 | a duplicate just hung under its parent has a well-formed parent chain, so its duplicate message can be formatted |
| Ast.RootName | dbusapi/ast.py:379-382 | without a parent, every kind but an argument is named by its own name |
| Ast.RootArgumentName | dbusapi/ast.py:577-582 | a parentless argument is `unnamed` or its quoted name |
| Ast.MemberUnderInterface | dbusapi/ast.py:379-382 | a property, method or signal under an interface is named `interface.name` |
| Ast.ArgumentUnderParent | dbusapi/ast.py:576-592 | an argument under a parent is its index, with its quoted name if it has one, then ` of <kind> Quoted(parent's pretty name)` |
| Ast.AnnotationUnderParent | dbusapi/ast.py:632-637 | an annotation under a parent is `name of Quoted(parent's pretty name)` |
| Ast.DuplicateProblem | dbusapi/ast.py:212-214 | the `duplicate-<kind>` issue for a child; `BaseAddChild` is proved to log exactly it when it refuses a child |
| Ast.Walk | dbusapi/ast.py:162-167 | the nodes `walk()` yields, in order; `WalkIsDescendants` proves they are exactly the node's descendants |
| Ast.WalkAll | dbusapi/ast.py:162-167 | the walk over a list of children, each followed by its own walk |
| Ast.WalkAllAppend | dbusapi/ast.py:162-167 | walking one more child appends the child and then its own walk |
| Ast.WalkIsDescendants | dbusapi/ast.py:162-167 | a node is yielded by the walk exactly when it is a child of the node, or a descendant of such a child, through `children` |
| Ast.WalkAllIsDescendants | dbusapi/ast.py:162-167 | the walk over a list of children yields exactly those children and their descendants |
| Ast.WalkStaysBelow | dbusapi/ast.py:162-167 | every node the walk yields is a node of the tree other than the starting node: the walk never yields the node itself |
| Ast.WalkAllStaysIn | dbusapi/ast.py:162-167 | every node the walk over a list of children yields is a node of the tree |
| AstScenarios.PropertyNameExample | dbusapi/tests/test_ast.py:41-50 | a property is `AProperty` alone and `Some.Interface.AProperty` under its interface |
| AstScenarios.CallableNameExample | dbusapi/tests/test_ast.py:52-72 | a method or signal under `Some.Interface` is named `Some.Interface.<name>` |
| AstScenarios.LoneArgumentExample | dbusapi/tests/test_ast.py:80-92 | a parentless argument is `Quoted("self")` or `unnamed` |
| AstScenarios.NamedMethodArgumentExample | dbusapi/tests/test_ast.py:74-78 | `0 (Quoted("self")) of method Quoted("ParentMethod")` |
| AstScenarios.UnnamedMethodArgumentExample | dbusapi/tests/test_ast.py:84-87 | `0 of method Quoted("ParentMethod")` |
| AstScenarios.InterfaceAnnotationExample | dbusapi/tests/test_ast.py:94-100 | `SomeAnnotation of Quoted("Some.Interface")` |
| AstScenarios.InterfaceMethodArgumentExample | dbusapi/tests/test_ast.py:135-146 | the argument of `Some.Interface.AMethod` is `0 (Quoted("Argument")) of method Quoted("Some.Interface.AMethod")` |
| AstScenarios.ArgumentAnnotationExample | dbusapi/tests/test_ast.py:135-146 | an annotation of that argument is `SomeAnnotation of` the argument's quoted name |
| AstScenarios.MemberAnnotationExample | dbusapi/tests/test_ast.py:102-133 | an annotation of a property, method or signal of `Some.Interface` is `SomeAnnotation of Quoted("Some.Interface.<name>")` |
| AstScenarios.DuplicateMethodExample | dbusapi/tests/test_ast.py:253-266 | a second `AMethod` under `Some.Interface` gives `duplicate-method` with `Duplicate method definition Quoted("Some.Interface.AMethod").` |
| AstScenarios.ArgumentIndexExample | dbusapi/tests/test_ast.py:202-215 | the two arguments of a method have indices 0 and 1 |
| AstScenarios.WalkExample | dbusapi/tests/test_ast.py:221-233 | an interface holding a method that holds an annotation walks to the method, then the annotation |
| AstScenarios.NewAstLog | dbusapi/ast.py:65 | a fresh log in the `ast` domain, with no issues and no codes |
| AstScenarios.PropertyScenario | dbusapi/tests/test_ast.py:157-170 | a property added to an interface is added, learns its interface, and its type renders as `s` |
| AstScenarios.MethodParentingScenario | dbusapi/tests/test_ast.py:172-185 | an annotation added to a method learns its parent; the method has no interface until an interface takes it, and then has that interface |
| AstScenarios.SignalParentingScenario | dbusapi/tests/test_ast.py:187-200 | the same for a signal |
| AstScenarios.ArgumentTypeScenario | dbusapi/tests/test_ast.py:244-248 | an argument of type `s` keeps a type that renders as `s` |
| AstScenarios.DuplicateMethodScenario | dbusapi/tests/test_ast.py:253-266 | the first `AMethod` is added and the second refused, leaving exactly one `(None, "ast", "duplicate-method", …)` issue |
| AstScenarios.ArgumentIndexScenario | dbusapi/tests/test_ast.py:202-215 | `index` is -1 before the argument has a parent and 0 once it is the method's first argument |
| AstScenarios.UnnamedChildNodeScenario | dbusapi/tests/test_interfaceparser.py:100-105 | a child node without a name is added, after one `missing-attribute` issue |
| AstScenarios.AbsoluteChildNodeScenario | dbusapi/tests/test_interfaceparser.py:107-112 | a child node named `/abs/N` is added, after one `node-name` issue |
| AstScenarios.InvalidInterfaceNameScenario | dbusapi/tests/test_interfaceparser.py:121-126 | an interface named `0` logs `Invalid interface name Quoted("0").` |
| AstScenarios.InvalidMemberNamesScenario | dbusapi/tests/test_interfaceparser.py:148-173 | a method `0M` and a signal `*S` log `method-name` and `signal-name`, in that order |

## Left out

- XML reading (`BaseNode.from_xml`, `parse_xml_children`, `ignore_node`): it walks an lxml element tree, a foreign library. The interface parser module is not part of this model. `format_name` is `pretty_name` and is not a separate member.
- The `re` engine: only the languages of the four expressions are modelled, with the prefix semantics of `re.match`.
- Marshalling and wire I/O: alignments are constants only.
- Strict D-Bus signature rules that the parser does not enforce (basic-only dict keys, dict entries only in arrays, exactly two dict members, depth and length limits): the parser is modelled as lenient as it is.
- Property and Argument constructors: `TypeParser(type_, log)` in `ast.py` passes two arguments to a constructor that takes one; the model builds the parser from the type string alone and keeps its result as `typeSignature`.
- `AstLog`, which `ast.py` imports, is not defined in `log.py`; `AstScenarios.NewAstLog` stands in for it as a `Log` with domain `ast`, and each scenario registers the codes it logs.
- Children passed to the Python constructors (the `annotations`, `interfaces`, `methods`, `args`, … dictionaries) are not constructor parameters here: the scenarios add them with `AddChild` after construction. So the model logs a container's own invalid-name issue before any issue its children cause, where Python adds the annotations (and, for a method or signal, the arguments) before checking the container's name.
- Ast.AstNode.AddChild: requires the child's kind to be one its parent contains (Python raises `KeyError`) and the codes it logs to be registered (Python fails the `log_issue` assertion); those failure paths are not modelled.
- Ast.AstNode.AddChild: requires a well-formed parent chain (no cycle, no dotted member under an unnamed node) when the child is a duplicate, because only then can its pretty name be formatted; on a cycle Python recurses without end or raises `TypeError`.
- Ast.AstNode.Index: requires an argument with a parent and no cached index to be among its parent's arguments; the `ValueError` that `list.index` raises otherwise (dbusapi/ast.py:603) is not modelled. `AddChild` never leaves an argument under a method or signal outside that list.
- Ast.PrettyName: defined without the side effect of `index` caching an argument's position; `AstNode.Index` models that caching.
- Ast.Walk: a tree that contains a cycle is outside its precondition (`TreeOK`); Python's generator would not end.
- Fields a kind does not have in Python (`access`, `direction`, `typeSignature`, `annotationValue` on other kinds) hold placeholder values.
- The abstract bases `Type` and `Container` and their `"\0"`/`INVALID` defaults are never instantiated, so they have no member here.
- SignatureLaws.ParsedSignatureSpellsInput: states the result and the consumed text, not the final cursor; `TypeParser.Parse` states the cursor.
- SignatureParser.TypeParser.GetOutputCodes is modelled as written (only `unknown-type`), and `OutputCodesOmitInvalidType` shows it does not list every code the parser records.
- Types.AsWrittenRendersExactlyPaired: stated for well-shaped trees, the only ones the parser builds; on other trees, members that `__str__` never renders (an array's second member, a dict entry's third) cannot make it raise.
- Signatures and names are sequences of characters (Unicode code points), not the bytes a Python 2 `str` indexes; for a non-ASCII character the `Unknown type` message here quotes the whole character, where Python quotes its first UTF-8 byte.
- `DictEntry.__str__` is modelled with Python 2 comparison semantics, where a list always compares greater than an integer; under Python 3 the comparison itself raises `TypeError`.

## Findings

| source | as written | input that shows it | evidently intended | confidence | as-written member | corrected member |
|---|---|---|---|---|---|---|
| dbusapi/types.py:337-338 | the guards compare the member list with 0 and 1 instead of its length, so both always hold (Python 2) and `members[0]`, `members[1]` are read even when absent | `a{s}`: the parser returns a one-member dict entry, and `str` of it raises IndexError | compare `len(self.members)`, printing `?` for a missing key or value, as `Array.__str__` does | not executed | Types.RenderAsWritten, SignatureLaws.AsWrittenDictEntryRaisesOnParsedTree | Types.Render, SignatureLaws.RoundTrip |
| dbusapi/typeparser.py:154-155 | `parse()` is documented to return a non-empty list of types, but for the empty signature the top-level loop never runs and an empty `TypeSignature` is returned | `""`: `parse()` returns a signature with no members and no output | the list is non-empty exactly when the signature is; the code is right and the documentation overstates | not executed | SignatureLaws.EmptySignatureHasNoMembers | SignatureLaws.ParsedMembersEmptyOnlyForEmptyInput |
