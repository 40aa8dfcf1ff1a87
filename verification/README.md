# A verified model of jsonv

jsonv parses JSON into a flat node pool, compiles JSON Schemas to bytecode and runs that
bytecode on parsed values, keeps runtime objects over a shared tree of shapes, and writes
them back as JSON. This project models these components in Dafny and proves what they promise.

* **Schema compiler and validator** (`Keywords` ... `Validation`, `Pipeline`). `Semantics` is
  a direct recursive reading of a schema tree that knows nothing of bytecode. Pass 1
  (`Pass1`) computes sizes and offsets, pass 2 (`Pass2`, `Emission`, `NodeEmission`,
  `Compiler`) writes bytes at two moving cursors, `Vm` and `Interp` are the interpreter with
  all its handlers. `Validation.CompileAndValidate` is compiler correctness;
  `Pipeline.ValidateText` starts from the texts of schema and value. `KeywordLaws` says what each
  keyword demands, from the bytes of its name on.
* **JSON front end** (`Lexing`, `Strings`, `Numerals`, `Grammar`, `Parser`, `PoolBuilt`,
  `KeySet`, `KeyTree`, `KeyForest`, `KeyOrder`, `Prescan`, `TextGrammar`, `TextTokens`, `Frontend`,
  `SaxEvents`, `Rendering`, `Sax`, `Comparison`). The explicit-stack parser accepts what RFC 8259 derives, but for unpaired
  surrogate escapes, up to its depth limit, and leaves the preorder flattening; the estimate made
  beforehand is always large enough; the streaming parser reads the same language, but for one
  case at the depth limit, and reports the same value.
* **Values and serializer** (`Values`, `Shapes`, `Heap`, `Json`, `JsonText`, `Serializer`,
  `Convert`, `Canonical`, `RoundTrip`). Objects that share shapes are independent dictionaries, reference
  counts are conserved, writing ends on cyclic heaps and fails exactly when it must, and
  writing, parsing and converting gives the value back with its keys in byte order and its
  numerals as they read.
* **Arena allocator** (`Arena`) and **YAML indentation lexer** (`YamlTokens`, `YamlLexing`,
  `YamlText`, `YamlReading`, `YamlUnique`). `YamlText` says over the bytes alone what a token
  sequence of a text is.

## Main results

* Compiling a schema on which the two passes agree and running its code is evaluating the
  schema tree, a later keyword replacing an earlier one, for every value:
  `Validation.CompileAndValidate`, and from the two texts `Pipeline.ValidateText`. When they
  agree on the code is said exactly, for every schema, by `Agreement.PassesAgree`; that pass 2
  stays inside the reserved constants, by `PoolSizes.PoolFits`. What a schema with one keyword
  accepts is said for each of the 29 names by the laws in `KeywordLaws`.
* Behind an optional byte order mark, the parser accepts exactly the byte strings that RFC 8259
  derives, nested at most 64 deep and without unpaired surrogate escapes, and leaves the preorder
  flattening of their value: `Frontend.ParseText`, `TextTokens.TextExact`, `Strings.BodyDecodes`.
  The grammar is stated over bytes in `TextGrammar`. It derives a lone surrogate escape too, which
  the lexer refuses: `Frontend.UnpairedRefused`. The estimate before it is never too small:
  `Prescan.EstimateExact`, `Prescan.ParseToAst`. The events of a text, written out again, are a
  text of the same value: `Sax.ParseSax`. On every text the two parsers answer alike and the
  events are those of the pool, except that only the streaming parser accepts a text with empty
  containers inside 64 others: `Comparison.ParseBoth`, `Comparison.DepthTestsDiffer`,
  `Comparison.ParsersDiffer`.
* Duplicate keys are marked exactly where their scoped keys fit the key set, and an object's tree
  lists its stored keys in byte order when these are free of NUL. If they are, and at most 256 to
  an object, objects converted from any two texts get the same shape exactly when their stored
  keys have the same texts, whatever the order and the repetitions in the source:
  `Frontend.DuplicatesExact`, `KeyOrder.AllSorted`, `KeyOrder.ListingExact`,
  `Canonical.ConvertBoth`.
* Structural equality is an equivalence relation on values without repeated live keys:
  `Equality.NodesEqual`, `EqualityLaws.SameReflexive`, `EqualityLaws.SameSymmetric`,
  `EqualityLaws.SameTransitive`. On leaves: `EqualityLaws.LeavesAre`.
* Objects over shared shapes are independent dictionaries and references are conserved, over
  every run: `Heap.Perform`, `Heap.LastSetWins`.
* The serializer ends on every heap and fails exactly when it must: `Serializer.Serialize`,
  `Serializer.FailsIff`. Serialize, parse and convert is the identity up to key order and
  the reading of numerals, and the identity exactly when neither matters: `RoundTrip.ThereAndBack`,
  `RoundTrip.DoubleBack`.
* Over any run the arena stays within its limit exactly when every block it makes fits the limit
  by itself: `Arena.Run`.
* The token stream of every YAML text is the one that its bytes allow, and its indentation tokens
  balance: `YamlLexing.Tokenize`, `YamlUnique.StreamExact`, `YamlTokens.StreamBalanced`.

## Reading the model

* A value is an `Ast.Tree`; a pool node range holds a tree when `At` (or `Built`, with parent
  links) relates them. Methods take the tree as a ghost parameter and their contracts speak
  of it. `Marked` is a tree with its duplicate keys marked.
* Doubles, regular expressions, format checkers, `strtod`, `%.17g` and the hash function are
  parameters (`Env`, `Floats` and function arguments); every theorem holds for all of them.
  A regular expression may fail to compile.
* Exceptions and error returns are a failure answer; descriptions and paths of errors are not
  modelled. A byte string that the program treats as a C string is cut at its first NUL (`CStr`).
* Pointers are indices: pool nodes, shapes, objects, arrays. Each method modifies the fields of
  one object (`CodeWriter`, `VMState`, `Builder`, `Lexer`, `Set`, `KeyTreePool`, `Heap`,
  `JsonWriter`, `Arena`, `YamlLexer`); buffers are arrays. The three parser stacks are sequences.
* `visit_subschemas` takes a callback; the model returns the visited nodes in call order. The
  25 emitting steps of pass 2 are one call each, in the program's order.
* `type_mask` is a set of types, and its byte is computed from the set. Handlers of one shape
  (the numeric bounds; the six counting limits) are one method with the keyword as parameter.
* Schema entries of `allOf`, `anyOf` and `oneOf` that are no schemas get an offset out of range,
  and running there answers true; the model does the same.
* `docs/isa.md` numbers `OP_FORMAT` 0x1B, the enumeration gives it 0x1A; the model follows the code.
* A negative `minLength` or `maxLength` limit is compared as a huge unsigned number, as the C
  conversion to `size_t` makes it; item and property limits are compared as signed numbers.

The two passes agree on a schema exactly when it is *exact*: no visited schema object has a member
that costs code and is replaced by a later member of the same keyword, and none has an empty
`required` (`Agreement.PassesAgree`). This is the condition of compiler correctness. A schema that
repeats no keyword and has no empty `required` is exact (`PoolSizes.CleanExact`).

## Model

| member | source | states |
|---|---|---|
| Unescape.Parse4Hex | src/parser/unescape.c:5-18 | succeeds exactly on four hexadecimal digits, and then yields their value |
| Unescape.DecodeStep | src/parser/unescape.c:50-97 | one pass of the loop reads and writes what the declarative decoding unit says, fallback branches included |
| Unescape.UnescapeString | src/parser/unescape.c:44-103 | the buffer holds the decoded text and a NUL, nothing else changes, the result is the length of the text |
| Unescape.UnescapedShrinks | src/parser/unescape.c:44-103 | decoding is the identity exactly when there is no backslash, and strictly shortens otherwise |
| Strings.RawEncodes | src/parser/lexer.c:127-157 | every multi-byte sequence the byte tables accept is the UTF-8 form of a Unicode scalar value |
| Strings.EncodedAccepted | src/parser/lexer.c:127-157 | the UTF-8 form of every scalar value is accepted to its full length |
| Strings.PlainCharExact | src/parser/lexer.c:47-166 | an unescaped character is accepted exactly when it encodes a code point that section 7 of RFC 8259 allows |
| Strings.BodyDecodes | src/parser/unescape.c:44-103 | every body the lexer accepts is decoded without reaching a fallback branch, to the UTF-8 form of its code points |
| Strings.TextIsUtf8 | src/parser/unescape.c:44-103 | the text of an accepted string is well-formed UTF-8, strictly shorter than the slice if it has escapes |
| Strings.Fallbacks | src/parser/unescape.c:50-97 | what no accepted text contains: a backslash at the end is dropped, an unknown letter stands for itself, `\u` without four digits for the letter u |
| Strings.LoneSurrogate | src/parser/unescape.c:70-92 | an unpaired surrogate escape is written as three bytes of its own |
| Numerals.NumberSound | src/parser/lexer.c:199-265 | what is read as a number matches number = [minus] int [frac] [exp] of section 6 of RFC 8259 |
| Numerals.NumberComplete | src/parser/lexer.c:199-265 | a numeral of the grammar that the next byte does not continue is read, and to its end |
| Numerals.NumberExact | src/parser/lexer.c:199-265 | before a byte that continues no numeral, lexer and grammar agree on every end |
| Lexing.Lexer.constructor | src/parser/lexer.c:323-334 | scanning starts behind an optional byte order mark |
| Lexing.Lexer.ScanEscape | src/parser/lexer.c:63-125 | accepts exactly the short escapes, a lone non-surrogate code unit and a surrogate pair, and moves past them |
| Lexing.Lexer.ParseString | src/parser/lexer.c:47-166 | finds the closing quote of a body of accepted characters, or fails; the escape flag is set exactly when a backslash occurs |
| Lexing.Lexer.ParseNumber | src/parser/lexer.c:199-265 | ends where integer, fraction and exponent end, or fails |
| Lexing.Lexer.ParseLiteral | src/parser/lexer.c:168-197 | recognises exactly the three literal words |
| Lexing.Lexer.NextToken | src/parser/lexer.c:267-321 | returns the next token of the declarative token stream and stands behind it |
| Grammar.ReadBack | src/parser/parser.c:264-419 | reading the spelling of a value gives the value back and leaves what follows |
| Grammar.OnlySpellings | src/parser/parser.c:264-419 | whatever is read is spelled at the front of the tokens: the grammar of section 2 of RFC 8259 and nothing else |
| Grammar.GrammarExact | src/parser/parser.c:264-419 | tokens spell a value exactly when reading them leaves nothing over, and spell only that value |
| KeyTree.CompareIsOrder | src/parser/keytree.c:24-60 | on keys without NUL the comparison is strict byte order and is zero only on equal keys |
| KeyTree.KeyTreePool.CompareKeys | src/parser/keytree.c:24-60 | the comparison of the decoded keys, byte by byte up to a NUL |
| KeyTree.KeyTreePool.Insert | src/parser/keytree.c:62-108 | the new entry hangs where the search ends; links only lead forward in the pool |
| KeyTree.KeyTreePool.Collect | src/parser/keytree.c:111-126 | appends exactly the in-order listing below a root to the output |
| KeyTree.KeyTreePool.GetOrdered | src/parser/keytree.c:128-134 | the output is the in-order listing of the tree |
| KeySet.Set.constructor | src/comm/struct/set.c:34-40 | an empty set whose capacity is the given one rounded down to a power of two |
| KeySet.Set.Insert | src/comm/struct/set.c:42-79 | answers unique, exists, full or, above 64 bytes, too long, exactly as a mathematical set of limited size would, for every hash function |
| KeySet.EmptyMeansAbsent | src/comm/struct/set.c:54-65 | an empty slot on the probe sequence proves the key absent |
| PowersOfTwo.NextIsPower | src/comm/struct/set.c:87-102 | the capacity is a power of two, and the smallest that is enough |
| PowersOfTwo.NextPowerIs | src/comm/struct/set.c:87-102 | the 64-bit shifts compute that capacity whenever they do not wrap |
| PowersOfTwo.NextPowerExact | src/comm/struct/set.c:87-102 | the shifts wrap to 0 exactly when no power of two is enough |
| PowersOfTwo.FloorPowerIs | src/comm/struct/set.c:6-19 | the 64-bit shifts compute the largest power of two that fits |
| PowersOfTwo.FloorKeepsNext | src/comm/struct/set.c:34-40 | rounding down keeps a capacity that was rounded up |
| PowersOfTwo.MaskedHashFits | src/comm/struct/set.c:52 | masking a hash with capacity minus one gives a slot of the table |
| ScopedKeys.ScopedInjective | src/parser/parser.c:151-158 | the scoped key determines both the object and the key |
| Parser.Builder.TextOf | src/parser/parser.c:153-158 | the key is decoded if it has escapes |
| Building.LinkAppends | src/parser/parser.c:116-133 | linking makes the new node the last child of its parent, skipped exactly when it is the value of a skipped key; every other node and child stays as it was |
| Parser.Builder.EnterNewKey | src/parser/parser.c:143-175 | the key is marked as duplicate, or entered into set and tree, as the building function says |
| Parser.ParseAst | src/parser/parser.c:264-419 | the explicit-stack loop succeeds exactly on one value nested at most 64 deep, and leaves the state that building this value leaves |
| PoolBuilt.TreeBuilt | src/parser/parser.c:101-178 | building a value in any state appends its marked preorder flattening with all parent, child and sibling links, and touches nothing else but the last sibling |
| PoolShape.BuiltAt | src/parser/parser.c:101-137 | a built pool is a preorder flattening: the value of a key is the next node |
| TextTokens.TextExact | src/parser/lexer.c:47-334 | the tokens of the bytes spell a value exactly when the grammar of RFC 8259 derives it from the bytes and no surrogate escape in it is unpaired |
| TextTokens.BodyUnique | src/parser/lexer.c:47-166 | a string body is one sequence of characters, so that having an unpaired surrogate escape is a property of its bytes |
| Frontend.UnpairedRefused | src/parser/lexer.c:92-118 | the text of a lone surrogate escape is derived by the grammar and refused by the lexer |
| Frontend.ParseText | src/parser/parser.c:264-419 | succeeds exactly on the byte strings from which RFC 8259 derives a value nested at most 64 deep without unpaired surrogate escapes; the pool is the preorder flattening, no longer than the text, and every key tree lists its live keys in order |
| Frontend.TextUnique | src/parser/parser.c:264-419 | a text stands for at most one value |
| Frontend.DuplicatesExact | src/parser/parser.c:126-176 | a key is skipped exactly when an earlier key of the same object has the same decoded text and its scoped key has at most 64 bytes; its value is skipped exactly with it |
| Frontend.ElementsLive | src/parser/parser.c:129-133 | no array element is ever skipped |
| KeyForest.InsertBelow | src/parser/keytree.c:81-106 | an insertion adds one entry to one tree, keeps it a tree, and keeps its listing in order: by text, and equal texts as in the source |
| KeyForest.EnterForest | src/parser/keytree.c:62-108 | entering a key keeps all trees of the shared pool disjoint and changes only its own object's |
| KeyOrder.TreeFiled | src/parser/parser.c:138-176 | building a value files exactly its stored keys, whatever trees are in the pool already |
| KeyOrder.AllSorted | src/parser/keytree.c:62-126 | in the pool of a parsed value every object's tree lists exactly its stored keys; when these are free of NUL, in byte order, and repeated texts in the order of the source |
| KeyOrder.ListingExact | src/parser/keytree.c:62-126 | the listing of NUL-free keys is non-decreasing, and strictly increasing exactly when no two stored keys of the object have the same text |
| KeyOrder.FinalIsLast | src/parser/parser.c:678-699 | of the stored keys with one text, the one whose value an object keeps is the last in the source |
| KeyOrder.CanonicalOrder | src/parser/keytree.c:111-134 | objects with the same NUL-free key texts list the same texts in the same order, whatever their source order, repetitions and pool |
| Prescan.Estimate | src/parser/prescan.c:7-83 | the fold of the byte step over the text, or an exception for a text over 2^32-1 bytes or an open string |
| Prescan.StringRun | src/parser/prescan.c:26-44 | the scan leaves a string where the lexer does and counts it once |
| Prescan.LexRun | src/parser/prescan.c:46-76 | scanning the bytes of any token changes the counters as the token says |
| Prescan.EstimateExact | src/parser/prescan.c:23-81 | on every text of the grammar object, array and depth counters equal those of the tree, and the value count is at least leaves plus keys |
| Prescan.RoomEnough | src/parser/parser.c:808-818 | after the factor 12/10 and the rounding there is room for every key |
| Prescan.ParseToAst | src/parser/parser.c:775-823 | with the estimated sizes every text of the grammar nested at most 64 deep is parsed; the key set and the key-tree pool are never full |
| Sax.SaxParser.Advance | src/parser/sax.c:33-36 | moves to the next token and fails exactly on a malformed one |
| Sax.SaxValue | src/parser/sax.c:42-88 | reads the value at the cursor within the depth limit and reports exactly its events |
| Sax.SaxObject | src/parser/sax.c:90-126 | reads members, separators included, and reports them in order |
| Sax.SaxArray | src/parser/sax.c:128-153 | reads elements, separators included, and reports them in order |
| Sax.ParseSax | src/parser/sax.c:155-182 | succeeds exactly on the byte strings from which RFC 8259 derives a value whose parts lie in at most 64 containers, without unpaired surrogate escapes, and reports the value's events, which written out again are a text of that value |
| Rendering.RenderedText | src/parser/sax.c:42-153 | the events of a text, written out again with separators, are a text of the same value by the grammar of RFC 8259 |
| Comparison.DepthTestsDiffer | src/parser/sax.c:42-46 | the depth tests of the two parsers differ exactly on values with a container inside 64 others, none deeper and all of these empty |
| Comparison.ParsersDiffer | src/parser/sax.c:42-46 | 65 opening and 65 closing brackets are such a text: the streaming parser accepts it, the other does not |
| Comparison.EventsOfPool | src/parser/sax.c:42-153 | the events of a value are read off its pool by token kind along the links, duplicates included |
| Comparison.ParseBoth | src/parser/sax.c:155-182 | on every text: what the pool parser accepts the streaming parser does, with the events of the pool; they differ exactly on texts with empty containers just beyond the limit |
| Pass1.FindKeyValue | src/validation/schema.c:131-142 | the value of the first member whose raw key is the given name, or -1 |
| Pass1.VisitSubschemas | src/validation/schema.c:385-453 | the visited nodes, in order, are those the schema tree lists |
| Pass1.CountRequired | src/validation/schema.c:534-548 | the number of names and the raw bytes they reserve |
| Pass1.CountProperties | src/validation/schema.c:549-574 | the number of rules and the raw bytes they reserve |
| Pass1.NodeSizes | src/validation/schema.c:458-593 | the size of a node's own block and of its strings, as a function of the schema tree |
| Pass1.CalculateSchemaSize | src/validation/schema.c:455-605 | returns the size of all code, lays every visited node out at its offset, and changes no other offset |
| Agreement.NodeAgrees | src/validation/schema.c:458-593 | a node never emits more than was counted, and as much exactly when no member that costs code is overwritten and no `required` is empty |
| Agreement.PassesAgree | src/validation/schema.c:455-1052 | so for the whole schema: the passes agree exactly when this holds of every visited node |
| PoolSizes.PoolFits | src/validation/schema.c:158-176 | constant-pool writes stay within what was reserved, and for a clean schema fill it exactly when no string has escapes |
| PoolSizes.CleanExact | src/validation/schema.c:455-605 | no repeated keyword and no empty `required` is enough for the passes to agree |
| Writer.CodeWriter.EmitU32 | src/validation/schema.c:110-115 | appends four little-endian bytes at the code cursor |
| Writer.CodeWriter.AppendText | src/validation/schema.c:144-176 | appends the decoded text to the pool; the NUL written by unescaping stays inside the reserved space |
| Writer.CodeWriter.EmitStringRef | src/validation/schema.c:158-176 | appends pool offset and length to the code and the text to the pool |
| Pass2.CollectFields | src/validation/schema.c:691-884 | the fields hold what the members so far say, later ones replacing earlier ones |
| Emission.EmitTypes | src/validation/schema.c:886-889 | appends the type instruction with the mask of the type set |
| Emission.EmitMany | src/validation/schema.c:953-979 | appends count and offsets of all entries of allOf, anyOf or oneOf |
| Emission.EmitIf | src/validation/schema.c:980-985 | appends the conditional with both branch offsets, absent ones as no offset |
| Emission.EmitRequired | src/validation/schema.c:994-1002 | appends the count and a reference to every required name |
| Emission.EmitProps | src/validation/schema.c:1003-1038 | appends the property rules, pattern rules and the rule for other members, or nothing when there are none |
| NodeEmission.EmitNode | src/validation/schema.c:619-1041 | appends exactly the encoding of the node's instructions, within the space pass 1 left |
| Compiler.SerializeSchema | src/validation/schema.c:609-1052 | both cursors advance by what the schema tree says, staying inside the reserved space; when the passes agree every block lands on its offset |
| Compiler.CompileSchema | src/validation/schema.c:1056-1095 | header, sizes and sections are in place, and an exact schema is compiled with every block on its offset |
| Validation.JumpsForward | src/validation/schema.c:591-603 | every subschema's block starts behind the whole block that refers to it, and inside the code |
| Vm.VMState.ReadText | src/validation/validate_opcodes.c:427-445 | a string reference yields the constant-pool text it was written for |
| Vm.HandleType | src/validation/validate_opcodes.c:28-68 | passes exactly the values of one of the types; the cursor is at the next instruction |
| Vm.HandleNumber | src/validation/validate_opcodes.c:70-102 | the bounds and multipleOf: passes non-numbers and exactly the numbers within the bound; the cursor is at the next instruction |
| Vm.HandleCount | src/validation/validate_opcodes.c:104-180 | the six length and count limits, negative length limits compared as huge unsigned ones and negative item and property limits as they are; the cursor is at the next instruction |
| Vm.HandlePattern | src/validation/validate_opcodes.c:427-477 | passes non-strings and exactly the strings that match; a pattern that does not compile fails |
| Vm.HandleUnique | src/validation/validate_opcodes.c:531-556 | rejects exactly the arrays with two equal items |
| Vm.HandleFormat | src/validation/validate_opcodes.c:733-768 | passes exactly what the named checker passes; unknown formats pass |
| Interp.FindProperty | src/parser/parser.c:484-518 | the value of the first live member of that decoded name, or -1 exactly when there is none |
| Interp.HandleRequired | src/validation/validate_opcodes.c:207-236 | passes non-objects and exactly the objects with all names; every successful path leaves the cursor at the next instruction |
| Interp.HandleItems | src/validation/validate_opcodes.c:182-205 | passes exactly when every item is accepted by the subschema |
| Interp.HandleContains | src/validation/validate_opcodes.c:558-584 | passes non-arrays and exactly the arrays with an accepted item |
| Interp.HandleNot | src/validation/validate_opcodes.c:586-598 | passes exactly what the subschema rejects |
| Interp.HandlePropertyNames | src/validation/validate_opcodes.c:692-731 | passes exactly when every live key is accepted as a string |
| Interp.HandleAllOf | src/validation/validate_opcodes.c:600-621 | passes exactly when every entry accepts, entries that are no schema counting as true |
| Interp.HandleAnyOf | src/validation/validate_opcodes.c:623-644 | passes exactly when some entry accepts, entries that are no schema counting as true |
| Interp.HandleOneOf | src/validation/validate_opcodes.c:646-665 | passes exactly when one entry accepts, entries that are no schema counting as true |
| Interp.HandleIf | src/validation/validate_opcodes.c:667-690 | passes exactly when the branch chosen by the condition accepts |
| Interp.HandleProperties | src/validation/validate_opcodes.c:238-371 | passes exactly when every live member satisfies its rule, all matching patterns, and the rule for other members when none covers it |
| Interp.Execute | src/validation/validate.c:40-60 | every instruction passes exactly the values it demands, and on success the cursor is at the next instruction |
| Interp.RunBlock | src/validation/validate.c:40-60 | the fetch loop ends at the block's own end and answers as its schema does |
| Interp.ValidateBytecode | src/validation/validate.c:3-64 | a nested run at a block's offset, or out of range, answers as the schema it was compiled from; recursion is on smaller schemas |
| NodeTruth.NodeMeaning | src/validation/schema.c:609-1052 | a schema node on which the passes agree accepts a value exactly when all its instructions hold of it, a later keyword replacing an earlier one |
| Ready.NodeReady | src/validation/schema.c:580-1052 | every offset an instruction holds leads to the block of its subschema, or nowhere for what is no schema |
| Validation.RunCompiled | src/validation/validate.c:3-64 | every compiled file of a schema on which the passes agree answers as direct evaluation of the schema tree |
| Validation.CompileAndValidate | src/validation/schema.c:1056-1095 | compiler correctness: compiling and running accepts exactly the values the schema tree accepts, for every schema under 2^31 bytes on which the two passes agree, repeated keywords included |
| KeywordLaws.KeyNames | src/validation/schema.c:273-279 | a key with the raw bytes of a keyword's name is that keyword |
| KeywordLaws.NoKeywordAccepts | src/validation/schema.c:273-279 | a schema whose keys are none of the 29 names accepts everything |
| KeywordLaws.PlainSchemas | src/validation/schema.c:621-630 | `false` accepts nothing; other literals and arrays everything |
| KeywordLaws.NumberLaws | src/validation/validate_opcodes.c:70-102 | each of the five number keywords by name: which comparison of the two doubles it demands |
| KeywordLaws.NumbersOnly | src/validation/validate_opcodes.c:70-102 | they let everything but numbers pass |
| KeywordLaws.LengthLaws | src/validation/validate_opcodes.c:104-136 | `minLength` and `maxLength`: the bytes between the quotes against the limit as an unsigned 64-bit number |
| KeywordLaws.ItemCountLaws | src/validation/validate_opcodes.c:138-180 | `minItems` and `maxItems`: the number of items against the signed limit; other values pass |
| KeywordLaws.PropertyCountLaws | src/validation/validate_opcodes.c:479-529 | `minProperties` and `maxProperties`: the number of members that are no duplicates against the signed limit |
| KeywordLaws.TypeLaw | src/validation/validate_opcodes.c:28-68 | `type` by type name: a value passes exactly when one of the listed names is its type |
| KeywordLaws.StringLaws | src/validation/validate_opcodes.c:427-477 | `pattern` and `format` by name: the expression matches, or the named checker passes |
| KeywordLaws.StringsOnly | src/validation/validate_opcodes.c:733-768 | they let everything but strings pass |
| KeywordLaws.UniqueLaw | src/validation/validate_opcodes.c:531-556 | `uniqueItems` that is `true`: no two items are the same value |
| KeywordLaws.ItemsLaw | src/validation/validate_opcodes.c:182-205 | `items`: every item is accepted; `contains`: some item is |
| KeywordLaws.NoSchemaIgnored | src/validation/schema.c:691-884 | these keywords are ignored when their value is no schema |
| KeywordLaws.NotLaw | src/validation/validate_opcodes.c:586-598 | `not`: what the schema rejects; `propertyNames`: every live key is accepted as a string |
| KeywordLaws.CombinationLaws | src/validation/validate_opcodes.c:600-665 | `allOf`, `anyOf`, `oneOf`: all, some, exactly one of the entries accept |
| KeywordLaws.IfLaw | src/validation/validate_opcodes.c:667-690 | `if`, `then`, `else`: the branch that the condition chooses accepts |
| KeywordLaws.BranchAlone | src/validation/schema.c:980-985 | `then` or `else` without `if` demands nothing |
| KeywordLaws.RequiredLaw | src/validation/validate_opcodes.c:207-236 | `required`: every listed name is the decoded name of a live member |
| KeywordLaws.PropertyLaws | src/validation/validate_opcodes.c:238-371 | `properties`, `patternProperties`, `additionalProperties`: every live member satisfies its own rule, every pattern that matches, and the last only if no other mentions it |
| Pipeline.MarkedSane | src/parser/parser.c:126-176 | a parsed value is what the validator needs of its input: string keys, tokens as the lexer makes them, nothing skipped but repeated members |
| Pipeline.MarkedIsDistinct | src/parser/parser.c:126-176 | where all scoped keys fit the key set, no object of a parsed value has two live keys with the same raw text |
| Pipeline.ValidateText | src/validation/schema.c:1056-1095 | from two texts to the verdict: parse, compile, parse, run is evaluating the schema tree on the value tree |
| Equality.CountLive | src/validation/validate_helpers.c:293-301 | the number of members that are not duplicates |
| Equality.FindKey | src/validation/validate_helpers.c:268-286 | the first live member with the raw key, and its value |
| Equality.NodesEqual | src/validation/validate_helpers.c:161-309 | terminates and decides equality of ordered arrays, of objects by the first live member of each key, and of raw leaves |
| Equality.ObjectsAreMaps | src/validation/validate_helpers.c:253-303 | objects without repeated live keys are compared as unordered maps |
| EqualityLaws.SameReflexive | src/validation/validate_helpers.c:161-309 | the equality is reflexive on values without repeated live keys |
| EqualityLaws.RepeatedNotReflexive | src/validation/validate_helpers.c:253-303 | and need not be with a live key repeated |
| EqualityLaws.SameSymmetric | src/validation/validate_helpers.c:253-303 | and symmetric, by counting keys, for every symmetric comparison of doubles |
| EqualityLaws.SameTransitive | src/validation/validate_helpers.c:161-309 | and transitive, for every transitive comparison of doubles |
| EqualityLaws.LeavesAre | src/validation/validate_helpers.c:187-226 | numerals of at most 127 bytes are the same exactly when spelled alike or when their doubles are equal, longer ones and strings exactly when spelled alike, different kinds never |
| EqualityLaws.SameArrays | src/validation/validate_helpers.c:228-251 | arrays are the same exactly when they are as long and their items are the same in order |
| EqualityLaws.KindsApart | src/validation/validate_helpers.c:187 | leaves, arrays and objects are never the same |
| EqualityLaws.EqualNumbersRefused | src/validation/validate_opcodes.c:531-556 | `uniqueItems` refuses two short numerals with equal doubles, however they are spelled |
| Values.SetIsUpdate | src/shape/obj.c:58-87 | setting a key is map update; the order of keys is kept and a new one comes last |
| Values.CountsPointers | src/shape/value.c:237-263 | a container is counted once for every cell that holds its pointer |
| Values.StepCounts | src/shape/value.c:237-263 | an operation moves exactly one reference: out of the cell it overwrites and into it |
| Shapes.PathOk | src/shape/shape.c:58-89 | the keys on every path are distinct and the slot count is their number |
| Shapes.ShapeUnique | src/shape/shape.c:45-89 | a shape is determined by its keys in order |
| Shapes.ExtendedOk | src/shape/shape.c:58-89 | a new transition keeps all paths and adds the one longer path |
| Heap.Heap.FindTransition | src/shape/shape.c:45-56 | finds the transition for the key, or there is none |
| Heap.Heap.TransitionAdd | src/shape/shape.c:58-89 | yields the shape with one more key, shared if it exists, and keeps every path |
| Heap.Heap.LookupSlot | src/shape/shape.c:124-136 | the position of the key on the path, or -1 |
| Heap.Heap.KeyOfSlot | src/shape/shape.c:138-147 | the key at that position, none for slot -1, and a question mark for any other slot the shape does not have |
| Heap.Heap.Retain | src/shape/value.c:237-245 | one more reference to the container, if there is one, and no other change |
| Heap.Heap.Release | src/shape/value.c:247-263 | one reference less, and no other change |
| Heap.Heap.ObjNew | src/shape/obj.c:13-23 | one more empty dictionary |
| Heap.Heap.EnsureSlots | src/shape/obj.c:31-56 | room for the slots, the old ones kept |
| Heap.Heap.ObjSet | src/shape/obj.c:58-87 | the dictionary is updated, every other container looks as before, and all reference counts equal the number of holders |
| Heap.Heap.ObjGet | src/shape/obj.c:95-103 | looks the key up in the object's dictionary |
| Heap.Heap.ObjLength | src/shape/obj.c:137-141 | the number of distinct keys |
| Heap.Heap.ObjAt | src/shape/obj.c:143-159 | key and value by position in the order of first setting, nothing out of range |
| Heap.Heap.ArrNew | src/shape/arr.c:14-24 | one more empty list |
| Heap.Heap.EnsureItems | src/shape/arr.c:32-58 | room for the items, the old ones kept and the new ones undefined |
| Heap.Heap.ArrSet | src/shape/arr.c:60-76 | the cell is written, cells in between are undefined, and all reference counts equal the number of holders |
| Heap.Heap.ArrGet | src/shape/arr.c:84-92 | the item in range, nothing out of range |
| Heap.SameKeysSameShape | src/shape/shape.c:45-89 | objects that list the same keys in the same order have the same shape |
| Heap.LastSetWins | src/shape/obj.c:58-103 | after any run an object yields the value last set for the key in that object |
| Heap.Perform | src/shape/obj.c:58-87 | after any interleaving every object is its own dictionary, every array its own list, and reference counts are conserved |
| Json.DenotesOne | src/shape/serialize.c:92-217 | a runtime value stands for at most one finite JSON value |
| Serializer.JsonWriter.WriteChar | src/shape/serialize.c:31-39 | appends to the text; the buffer holds what fits, and after an error nothing changes |
| Serializer.JsonWriter.WriteEscapedStr | src/shape/serialize.c:50-90 | appends the quoted string with every byte escaped as the table says |
| Serializer.VisitedContains | src/shape/serialize.c:20-29 | whether the container is on the path |
| Serializer.SerializeVal | src/shape/serialize.c:92-217 | terminates on cyclic heaps; appends the value's one text, or fails exactly when it has none |
| Serializer.FailsIff | src/shape/serialize.c:92-217 | a value has no text exactly when some way down from it ends at an unserializable leaf or at a container it has passed |
| Serializer.Serialize | src/shape/serialize.c:219-240 | -1 exactly on failure, else the length of the text whatever the buffer, which gets the NUL-terminated prefix |
| JsonText.EscBodyDecodes | src/shape/serialize.c:50-90 | unescaping the written body gives the bytes back, for every byte string |
| JsonText.EscCharForms | src/shape/serialize.c:50-90 | which bytes are written as two characters, which as `\u00XY`, and which as they are; a two-character escape stands for the byte |
| JsonText.NumeralHere | src/shape/serialize.c:115-133 | a written double or kept numeral is one number token with exactly that spelling |
| JsonText.BodyRead | src/shape/serialize.c:50-90 | the written form of a well-formed text ends for the lexer where its quote stands |
| JsonText.PrintRead | src/shape/serialize.c:92-217 | the tokens of a written value spell its tree, wherever it stands, doubles and kept numerals included |
| Convert.ConvertLeaf | src/parser/parser.c:717-766 | numerals become integers, doubles or kept text; strings are decoded; each word is the value of its name, anything else null |
| Convert.AstToValue | src/parser/parser.c:671-773 | the result represents the pool's value in fresh containers, objects keyed in tree order, the last value of a repeated key kept; what was in the heap is untouched |
| Canonical.TreeConvertible | src/parser/parser.c:678-699 | every parsed value whose stored keys are free of NUL, at most 256 to an object, meets what the conversion needs, repeated keys included |
| Canonical.SourceStored | src/parser/parser.c:151-176 | marking duplicates loses no text: the stored keys of an object have the texts of all its keys in the source but those whose scoped key has more than 65535 bytes |
| Canonical.DictKeys | src/parser/parser.c:678-699 | the keys of a converted object are exactly the texts of its stored keys |
| Canonical.CanonicalShapes | src/parser/parser.c:678-699 | two converted objects share one shape exactly when their stored keys have the same texts, whatever order and repetitions in the source |
| Canonical.ConvertText | src/parser/parser.c:671-773 | every text of the grammar within the limits is parsed and converted, and the result represents its value |
| Canonical.ConvertBoth | src/parser/parser.c:678-699 | two texts converted into one heap: any two objects in them share their shape exactly when their stored keys have the same texts |
| RoundTrip.IntegerBack | src/parser/parser.c:730-748 | reading a written 64-bit integer gives the integer |
| RoundTrip.FloatExact | src/parser/parser.c:719-727 | exactly the numerals with a fraction or an exponent are read as doubles |
| RoundTrip.NumeralMeans | src/parser/parser.c:717-756 | under 128 bytes a numeral with fraction or exponent becomes the double `strtod` finds, any other the 64-bit integer if it is one; every other numeral stays text |
| RoundTrip.DoubleBack | src/shape/serialize.c:115-124 | a written double comes back as the double its text reads as, or as an integer if the text has neither fraction nor exponent; it is kept exactly when its text has one and reads back as itself |
| RoundTrip.NothingMarked | src/parser/parser.c:126-176 | where no key occurs twice, parsing marks nothing |
| RoundTrip.TextOfPrint | src/shape/serialize.c:92-217 | the serialized text spells exactly the value, doubles as their text, kept numerals as they are |
| RoundTrip.CanonSame | src/parser/keytree.c:111-134 | the value with keys sorted and numerals read again is the value itself exactly when its keys were in byte order and every numeral reads as itself |
| RoundTrip.ReadBackValue | src/parser/parser.c:671-773 | parsing and converting a written value gives it back up to key order and the reading of its numerals |
| RoundTrip.ThereAndBack | src/shape/serialize.c:219-240 | serialize, parse and convert is the identity up to key order and the reading of numerals, and exactly the identity exactly when the keys were in byte order and every numeral reads as itself |
| Arena.New | src/comm/struct/arena.c:64-104 | one block within the limit, or a refusal, each reason exactly under its condition |
| Arena.Arena.Alloc | src/comm/struct/arena.c:145-228 | a span apart from all live ones, inside its block and 16-aligned unless empty, from the current block if it has room, else from the next one; each error exactly under its condition, and then nothing changes; the total stays within the limit exactly when no block is made or the block fits the limit by itself |
| Arena.Arena.ResetTo | src/comm/struct/arena.c:267-307 | what lies in the kept part of the head stays live; the chain is trimmed exactly when more than the soft limit is reserved |
| Arena.LimitPassed | src/comm/struct/arena.c:192 | a run that passes the limit with one request |
| Arena.Run | src/comm/struct/arena.c:145-307 | over any run the reserved total is the sum over the chain and live spans stay apart; the limit is kept at every step exactly when every block made fits the limit by itself |
| YamlLexing.YamlLexer.ParseQuoted | src/parser/yaml_lexer.c:32-62 | the slice up to the first quote that is neither doubled nor escaped, or an error at the end of the input |
| YamlLexing.YamlLexer.ParseUnquoted | src/parser/yaml_lexer.c:64-131 | the slice up to the first byte that stops a plain scalar, trailing blanks trimmed, classified as word, number or string |
| YamlLexing.YamlLexer.ParseBlock | src/parser/yaml_lexer.c:133-322 | the slice of the lines indented like the first content line, empty when that is not deeper than the current level |
| YamlLexing.YamlLexer.FlowLines | src/parser/yaml_lexer.c:371-396 | passes over blank and comment lines inside flow brackets |
| YamlLexing.YamlLexer.IndentLines | src/parser/yaml_lexer.c:397-482 | the virtual token or error due at the first content line, with the stack that `IndentStep` gives |
| YamlTokens.IndentKeeps | src/parser/yaml_lexer.c:397-482 | INDENT and DEDENT leave the stack at the indentation of the line at the cursor; no token is due only when it was there already |
| YamlLexing.YamlLexer.NextContent | src/parser/yaml_lexer.c:520-570 | the token and state of `Content`: bullets, flow brackets, separators and scalars |
| YamlLexing.YamlLexer.Next | src/parser/yaml_lexer.c:352-570 | the token and the whole new state that the specification step gives |
| YamlTokens.StepKeeps | src/parser/yaml_lexer.c:352-570 | every step keeps the stack strictly increasing from 0 below 64 levels, changes open plus owed levels exactly as its token says, and gets nearer to the end in the lexicographic measure |
| YamlLexing.Tokenize | src/parser/yaml_lexer.c:352-570 | the tokens are the one sequence that the bytes allow by `YamlText.Reads`: every slice, kind, column and gap |
| YamlTokens.StreamBalanced | src/parser/yaml_lexer.c:352-570 | every stream reaches EOF with as many DEDENTs as INDENTs, and never has more on the way |
| YamlReading.StreamReads | src/parser/yaml_lexer.c:352-570 | every token is what the bytes of its slice say (marks, quoted, block and plain scalars, words and numbers), lines stand in the column of the innermost level, errors are due, and only blanks, line ends and comments are passed over |
| YamlUnique.StreamExact | src/parser/yaml_lexer.c:352-570 | no other token sequence says that: the reading of a text is unique |
| YamlUnique.SlicesApart | src/parser/yaml_lexer.c:352-570 | the slices stand in the order of the tokens, disjoint and inside the text |

## Left out

- Error descriptions, error paths and `get_node_path`: only the answer is modelled.
- Failing allocations outside the arena: parsing, compiling and setting keys are modelled with memory available.
- Floating-point conversion and arithmetic, regular expressions and the ipv4, email, uuid and date-time checkers: parameters.
- Atoms and tables: the keyword table is a fixed map from raw key bytes to keywords.
- Mutexes, thread-local state, custom allocator callbacks and `destroy`: no logic of their own.
- Callbacks of the streaming parser that stop it: callbacks that always continue are modelled.
- Keys whose scoped form exceeds 65535 bytes are modelled as the code has them: neither marked nor entered.
- Heap.Heap.ObjNew: always starts from the one root shape; a caller's own root is not modelled.
- Heap.Heap.TransitionAdd: asked only for keys the shape does not have, as `obj_set` does.
- Convert.AstToValue: needs stored keys without NUL, and at most 256 of them in an object, which is what its fixed array of sorted keys takes.
- RoundTrip.ThereAndBack: doubles whose `%.17g` text is a numeral, and numerals that read as finite doubles, as both conversions are parameters; scoped keys have at most 65535 bytes, as longer ones are not stored.
- KeyOrder.AllSorted: order is stated for keys without NUL; membership for all.
- Serializer.Serialize: a buffer of size 0 is not modelled; the size minus one would wrap.
- Line and column numbers and the new-line flag of YAML tokens, and the YAML parser behind the lexer.
- Sizes beyond the ones named: counts and lengths are unbounded numbers where the program bounds its input first.
- AST node kinds the JSON parser never makes, printing of trees, values and tokens, `jsonv_value_get_path`, `is_compiled_schema_match`.
