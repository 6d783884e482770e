# celadon core in Dafny

celadon is an early interpreter for a small bracketed language. This project models its core:

- **StackMap** is the interpreter's hash map that lets a key appear more than once. Its table uses open addressing with linear probing and keeps a separate `order` list of occupied slots. `put` on a present key keeps the new value in the key's first-probed slot and appends a slot holding the value it displaced. `remove` returns the first-probed value and refills that slot from the end of the probe run. Together they make the map a stack per key, as long as no other key's entries sit in the same contiguous block of occupied slots: the most recent value wins, and removing it reveals the previous one. When another key's entry follows in the same block, as happens when two keys have adjacent home slots, `remove` refills from the end of the whole block, and that other key's entry is lost (`StackLaws.RemoveOnSharedRun`).
  - `StackTables` is the table as a value, one function per StackMap operation.
  - `StackLaws` holds the lemmas about those functions.
  - `StackMaps.StackMap` is the class over `key`/`value` arrays. Each of its methods is proved to change its fields as the matching `StackTables` function does.
  - `HashCommon` is the bit-smearing `nextPowerOfTwo` on 64-bit longs.
  - `StackMapUnwrap` is the `unwrap`/`objectUnwrap` copy loop.
- **Context** is the interpreter's environment: a map from names to binding stacks. `peek`, `push` and `pop` work on the head of a name's list. Reserved names, whose list ends in `Token.RESERVED`, never change, and `core()` binds `null`, `true` and `false` that way. `parse` is the left-to-right scan of a token list. It collects the payloads of resolved tokens, keeps a stack of open-bracket positions, rejects mismatched brackets, and hands ranges of tokens to `IMorph` handlers that rewrite the list (module `Contexts`).
- **Tokens** (modules `Lexeme` and `LangToken`):
  - `bracketsMatch` is a mirrored bracket comparison;
  - `equals` is null-aware field equality;
  - `hashCode` is a 32-bit accumulating hash, modelled on `bv32`;
  - `toString` has four cases.
  - The same logic exists in `celadon.Token` and `lang.celadon.Token`.
- **Objects**: the Java values the interpreter handles, with their `equals`, `hashCode` and `toString`. This includes the indirection cells `Cel` and `Name`, which compare and render through their referent.
- **Core**: the coercions `asLong`, `isNumeric` and `isFloating`, and the `plus` procedure on the exchange deque (module `Numeric`).
- **TList**: the token list's rendering, its `as` payload filter and the immutable `TList.empty` (module `TLists`).
- **Mutant and ARun**: closures that capture a slice of the token list as their body.
  - `Mutant.morph` reduces the body through an oracle.
  - It then replaces a range of the caller's tokens with its result and returns a count (module `Mutants`).
  - `ARun` is the declared-function record and its rendering (module `Runs`).

Java's 32- and 64-bit wrap-around is explicit (`JavaLang.Wrap32`, `Wrap64`, `bv32`, `bv64`). Several members are used by the code shown but not declared in it. Each is a parameter or an abstract datatype case:

- `Token.special`, `Token.solid`, `Token.stable` and `Token.RESERVED`;
- `Context.step`, modelled as the `Reduction` oracle;
- the `IMorph.morph` call that `parse` makes, modelled as the `Morph` oracle;
- the syntax values `GAP`, `NOW`, `ACCESS` and `EMPTY`;
- the hash a StackMap applies to a key, modelled as the `hash` field.

## Model

| member | source | states |
|---|---|---|
| Lexeme.MatchBracket | src/main/java/celadon/Token.java:38 | Category.matchBracket maps each of `()[]{}` to a different bracket and keeps every other character off that set |
| Lexeme.MatchBracketInvolution | src/main/java/celadon/Token.java:38 | matching a bracket twice gives the bracket back |
| Lexeme.BracketsMatch | src/main/java/celadon/Token.java:33-41 | the loop answers exactly the mirror-image relation. It is false when either bracket or the other token is null, when the closing flags agree, or when the lengths differ |
| Lexeme.PairsSymmetric | src/main/java/celadon/Token.java:33-41 | if t's bracket matches u's, then u's matches t's |
| Lexeme.PairsExamples | src/main/java/celadon/Token.java:33-41 | "(" matches ")" and "([" matches "])", but "(" does not match "]" |
| Lexeme.Equals | src/main/java/celadon/Token.java:43-54 | equals holds exactly when the other object is a token with the same four fields, each null only where the other is null |
| Lexeme.FeedLoop | src/main/java/celadon/Token.java:60-62 | the character loop leaves `z` and `result` as the 32-bit fold over the string |
| Lexeme.HashCode | src/main/java/celadon/Token.java:56-76 | the method computes the hash specified by the fold over contents, mode, the closing flag and bracket |
| Lexeme.EqualsHashConsistent | src/main/java/celadon/Token.java:43-76 | equal tokens have equal hash codes |
| Lexeme.ToString | src/main/java/celadon/Token.java:78-92 | "null" for an empty token; the contents for a token without a bracket; otherwise the rendering starts with `#mode` when there is a mode, and is `#mode` and the bracket alone when there are no contents |
| Lexeme.RenderingDelimitsContents | src/main/java/celadon/Token.java:78-92 | a bracketed token with contents renders as its mode tag, then the bracket, the contents and the bracket again, with the lengths adding up |
| LangToken.BracketsMatch | src/main/java/lang/celadon/Token.java:76-84 | the same mirrored comparison; a match implies opposite closing flags, equal lengths and a match in the other direction |
| LangToken.EqualsIsFieldEquality | src/main/java/lang/celadon/Token.java:86-97 | equals is equality of the four declared fields, and is reflexive, symmetric and transitive |
| LangToken.HashCode | src/main/java/lang/celadon/Token.java:99-119 | the method computes the token's hash as the object universe defines it |
| LangToken.EqualTokensHashAlike | src/main/java/lang/celadon/Token.java:86-119 | equal tokens hash alike, whatever their level and payload |
| LangToken.RenderingDelimitsContents | src/main/java/lang/celadon/Token.java:121-135 | the rendering brackets the contents after the mode tag, and ignores the level and the payload |
| Objects.EqualsReflexive | src/main/java/lang/celadon/Cel.java:52-65 | every non-null value, Cels and Names included, equals itself |
| Objects.FlatHashAgreesWithEquals | src/main/java/lang/celadon/Token.java:86-119 | for values that are not cells or lists, equal values have equal hashes |
| Objects.HashAgreesWithEquals | src/main/java/lang/celadon/Cel.java:67-70 | equal values have equal hashes, through nested Cels, Names and token lists |
| Objects.CelEqualityByReferent | src/main/java/lang/celadon/Cel.java:52-70 | Cels with non-null referents are equal iff the referents are. A null-referent Cel equals null and exactly the null-referent Cels. Equal Cels hash alike |
| Objects.NameEqualityByReferent | src/main/java/lang/celadon/Name.java:25-43 | the same for Names |
| Objects.CelEqualityIsOneSided | src/main/java/lang/celadon/Cel.java:61-62 | a Cel equals a raw string of its referent's class and value, but the string does not equal the Cel, and a Cel does not equal a raw value of another class |
| Objects.CelRenderings | src/main/java/lang/celadon/Cel.java:25-50 | for every title, string and character: the null-referent texts, any string in single quotes, any character in backticks, SYMBOL as the title, and the referent's own text for every referent that is not text, a character, SYMBOL or a glyph |
| Objects.CelGlyphs | src/main/java/lang/celadon/Cel.java:28-44 | for every title, each of GAP, NOW, ACCESS, EMPTY and the six brackets renders as its fixed glyph |
| Objects.CelFallbackExamples | src/main/java/lang/celadon/Cel.java:49 | examples of the fallback: COMMA renders as "COMMA" and true as "true" |
| Objects.NameRendersReferent | src/main/java/lang/celadon/Name.java:19-23 | a Name with a referent renders as the referent, whatever its title |
| Objects.HashByName | src/main/java/lang/celadon/Cel.java:72-78 | HasherByName gives 0 for anything but a Cel, and the title's hash for a Cel |
| Numeric.AsLong | src/main/java/lang/celadon/Core.java:11-18 | booleans become 1 and 0; anything neither Number nor Boolean, null included, becomes 0 |
| Numeric.CoercionLaws | src/main/java/lang/celadon/Core.java:11-37 | every floating value is numeric; a boxed long is numeric, not floating, and reads back as itself; null is not numeric and reads as 0 |
| Numeric.Exchange.Plus | src/main/java/lang/celadon/Core.java:39-61 | plus as written changes the exchange deque as PlusAsWritten says |
| Numeric.PlusAsWrittenEffect | src/main/java/lang/celadon/Core.java:42-58 | an empty deque stays empty; a non-floating head becomes its long value and nothing else changes; a floating head with a second element loses one element; a lone floating head is replaced |
| Numeric.PlusIgnoresSecondOperand | src/main/java/lang/celadon/Core.java:49-57 | as written, plus on the deque [1, 2] leaves [1, 2]; the intended plus gives [3] |
| Numeric.Exchange.PlusCorrected | src/main/java/lang/celadon/Core.java:39-61 | plus with the integral test the right way round changes the deque as PlusIntended says |
| Numeric.PlusIntendedAdds | src/main/java/lang/celadon/Core.java:49-58 | two integral heads are replaced by one Long whose value is their 64-bit wrapped sum; the rest of the deque is kept; the order of the operands does not matter |
| JavaLang.Wrap32 | src/main/java/lang/celadon/StackMap.java:979 | int addition gives the int congruent to the exact sum modulo 2^32, and the sum itself when it is an int |
| JavaLang.Wrap64 | src/main/java/lang/celadon/Core.java:55 | long addition gives the long congruent to the exact sum modulo 2^64 |
| TLists.TList.constructor | src/main/java/lang/celadon/TList.java:19-28 | a new list is mutable and empty |
| TLists.TList.FromCollection | src/main/java/lang/celadon/TList.java:38-40 | the collection constructor keeps the source's elements in their order |
| TLists.TList.Empty | src/main/java/lang/celadon/TList.java:74-83 | TList.empty is immutable and empty |
| TLists.TList.ToString | src/main/java/lang/celadon/TList.java:42-57 | the loop builds "[", the token texts separated by single spaces, and "]" |
| TLists.ListTextSmall | src/main/java/lang/celadon/TList.java:42-57 | the empty list renders as "[]" and a singleton as its token in brackets |
| TLists.ListTextAppend | src/main/java/lang/celadon/TList.java:42-57 | the rendering of a concatenation is the two renderings joined by one space in place of "] [" |
| TLists.TList.As | src/main/java/lang/celadon/TList.java:61-72 | the loop collects the payloads of the tokens whose level is positive, in list order |
| TLists.PayloadsLaws | src/main/java/lang/celadon/TList.java:61-72 | the payload filter distributes over concatenation, keeps a single token's payload iff its level is positive, and is never longer than the list |
| TLists.TList.Set | src/main/java/lang/celadon/TList.java:93-96 | the empty list throws Unsupported and does not change; a mutable list replaces the element and returns the old one, or throws IndexOutOfBounds outside the list |
| TLists.TList.Add | src/main/java/lang/celadon/TList.java:105-108 | Unsupported on the empty list; otherwise appends and answers true |
| TLists.TList.AddAt | src/main/java/lang/celadon/TList.java:117-120 | Unsupported on the empty list; otherwise inserts at the index, or throws IndexOutOfBounds outside 0..size |
| TLists.TList.RemoveAt | src/main/java/lang/celadon/TList.java:129-132 | Unsupported on the empty list; otherwise removes and returns the element at the index, or throws IndexOutOfBounds |
| TLists.TList.RemoveObject | src/main/java/lang/celadon/TList.java:141-144 | Unsupported on the empty list; otherwise removes the first equal element and answers whether there was one |
| TLists.TList.Clear | src/main/java/lang/celadon/TList.java:149-151 | clear empties a mutable list, and on the empty list it is a quiet no-op |
| TLists.TList.AddAll | src/main/java/lang/celadon/TList.java:160-163 | Unsupported on the empty list; otherwise appends the collection and answers whether it was non-empty |
| TLists.TList.AddAllAt | src/main/java/lang/celadon/TList.java:174-177 | Unsupported on the empty list; otherwise inserts the collection at the index, or throws IndexOutOfBounds |
| TLists.TList.RemoveRange | src/main/java/lang/celadon/TList.java:186-189 | Unsupported on the empty list; otherwise cuts out [from, to), or throws IndexOutOfBounds |
| TLists.TList.RemoveAll | src/main/java/lang/celadon/TList.java:199-202 | Unsupported on the empty list; otherwise keeps exactly the elements not in the collection and answers whether any went |
| TLists.TList.RetainAll | src/main/java/lang/celadon/TList.java:212-215 | Unsupported on the empty list; otherwise keeps exactly the elements in the collection and answers whether any went |
| TLists.EmptyStaysEmpty | src/main/java/lang/celadon/TList.java:74 | after each of set, add, add at an index, remove at an index, remove an object, clear, addAll, addAll at an index, removeRange, removeAll and retainAll in turn, TList.empty still has size 0, and every one but clear refused with Unsupported |
| Contexts.Context.constructor | src/main/java/lang/celadon/Context.java:12-16 | a new context binds nothing |
| Contexts.Context.Copy | src/main/java/lang/celadon/Context.java:17-20 | the copy constructor maps every name to the same list object as the original |
| Contexts.Context.Snapshot | src/main/java/lang/celadon/Context.java:17-20 | a deep copy has the same bindings over fresh lists |
| Contexts.MakeLL | src/main/java/lang/celadon/Context.java:21-28 | the loop builds stable tokens of the arguments in argument order |
| Contexts.StableLL | src/main/java/lang/celadon/Context.java:29-34 | a fresh one-element list holding the stable token |
| Contexts.Reserve | src/main/java/lang/celadon/Context.java:35-41 | a fresh list of the stable token and then RESERVED |
| Contexts.Context.Core | src/main/java/lang/celadon/Context.java:42-47 | null, true and false are bound to their reserved lists and every other binding stays |
| Contexts.CoreNamesAreConstants | src/main/java/lang/celadon/Context.java:35-87 | after core, each of the three names is reserved, peeks as its stable value, and ignores push and pop |
| Contexts.Context.Put | src/main/java/lang/celadon/Context.java:44-46 | HashMap.put as core calls it, with a fresh list that no other name owns: the table maps the key to the given list and keeps every other binding, and the bindings change in the same way |
| Contexts.Context.Peek | src/main/java/lang/celadon/Context.java:49-58 | peek reads the head of the name's list, or null for an unbound name |
| Contexts.Context.Push | src/main/java/lang/celadon/Context.java:59-74 | push prepends to a non-reserved name's list, binds an unbound name to a new one-element list, and leaves a reserved name alone. It fails only on an empty list |
| Contexts.Context.Pop | src/main/java/lang/celadon/Context.java:75-87 | pop drops the head of a non-reserved list, unbinds the name when the list empties, and leaves reserved and unbound names alone |
| Contexts.PushThenPeek | src/main/java/lang/celadon/Context.java:49-74 | after a push on a non-reserved name, peek answers the pushed token, and every other name peeks as before |
| Contexts.PushPopRoundTrip | src/main/java/lang/celadon/Context.java:59-87 | push followed by pop on a non-reserved name restores the bindings exactly |
| Contexts.PopRevealsPrevious | src/main/java/lang/celadon/Context.java:75-87 | pop reveals the previous token, or unbinds the name after its last token, and leaves other names alone |
| Contexts.ReservedNamesAreFrozen | src/main/java/lang/celadon/Context.java:64-81 | push and pop change nothing on a reserved name, and pop changes nothing on an unbound name |
| Contexts.NonEmptyIsKept | src/main/java/lang/celadon/Context.java:59-87 | push and pop keep every bound list non-empty |
| Contexts.PushThroughCopy | src/main/java/lang/celadon/Context.java:17-20 | a push through a shallow copy, on a name the original binds, changes the original's bindings in the same way, and both then see the same bindings |
| Contexts.CopySharesBindings | src/main/java/lang/celadon/Context.java:17-20 | after binding "x" to 1 and pushing 2 on "x" through a shallow copy, the original's peek of "x" answers 2 |
| Contexts.PushThroughSnapshot | src/main/java/lang/celadon/Context.java:17-20 | a push on a deep copy leaves the original's bindings as they were |
| Contexts.SnapshotKeepsBindings | src/main/java/lang/celadon/Context.java:17-20 | with a deep copy in its place, the original's peek of "x" stays 1 |
| Contexts.CallMorph | src/main/java/lang/celadon/Context.java:104 | the handler call fails with NullPointer on a null payload and with ClassCast on a non-handler, leaving the list alone; otherwise it rewrites the list and returns the handler's count |
| Contexts.Context.Pass | src/main/java/lang/celadon/Context.java:97-120 | one pass of the loop body changes the list and the scan state as the step function says |
| Contexts.Context.Parse | src/main/java/lang/celadon/Context.java:89-122 | parse(null) is an empty list. Otherwise the loop ends with the values and list of the scan function, or fails with its exception and leaves the list as the scan left it |
| Contexts.ParseWellNested | src/main/java/lang/celadon/Context.java:97-120 | on well-nested plain brackets and resolved tokens, parse returns the payloads of the positive-level tokens in order and leaves the list alone |
| Contexts.ParseRejectsMismatch | src/main/java/lang/celadon/Context.java:110-115 | for any well-nested forms before an open bracket and between it and a closing bracket that does not mirror it, and any tokens after, parse throws the mismatch exception naming the open bracket and leaves the list unchanged |
| Contexts.ScanRejectsMismatch | src/main/java/lang/celadon/Context.java:104-115 | at any depth: from any scan state, whatever brackets are already open and values collected, an open bracket, well-nested forms and a closing bracket that does not mirror it make parse throw the mismatch exception naming that open bracket, with the list unchanged |
| Contexts.ParseRejectsNestedExample | src/main/java/lang/celadon/Context.java:110-115 | an example at depth two: `( { ] )` throws the mismatch exception naming "{" |
| Contexts.ParseRejectsStrayClose | src/main/java/lang/celadon/Context.java:110 | a closing bracket that follows only well-nested forms, whatever comes after it, fails on the empty position stack and leaves the list unchanged |
| Mutants.Mutant.constructor | src/main/java/lang/celadon/Mutant.java:25-32 | the mutant keeps a copy of the context over the same lists, its title, and the body slice twice as body and bodyFixed |
| Mutants.NewMutant | src/main/java/lang/celadon/Mutant.java:25-32 | the same construction fails with IndexOutOfBounds exactly when the body range is not inside the token list |
| Mutants.Refill | src/main/java/lang/celadon/Mutant.java:66-79 | nothing for a null result or a null payload; the elements of a collection payload; a token payload alone; otherwise the result token itself |
| Mutants.SpliceKeepsOutside | src/main/java/lang/celadon/Mutant.java:65-79 | the splice keeps the tokens before start, puts the refill at start, and keeps the tokens after end in order behind it |
| Mutants.Mutant.Morph | src/main/java/lang/celadon/Mutant.java:58-80 | morph as written: body is the unreduced rest plus bodyFixed; the caller's range is replaced by the refill, and the count is the as-written count; an out-of-range start or end fails and changes no tokens |
| Mutants.CountAsWrittenExceedsRefill | src/main/java/lang/celadon/Mutant.java:68-72 | the count as written is the refill size plus, for a non-empty collection payload, every token outside the range |
| Mutants.CountIsListSize | src/main/java/lang/celadon/Mutant.java:71 | a one-token collection refilled into a two-token list counts 2 where one token was refilled |
| Mutants.Mutant.MorphCorrected | src/main/java/lang/celadon/IMorph.java:10-13 | the same splice, returning the number of tokens refilled, so that the list's new size is its old size less the range plus the count |
| Mutants.Mutant.ToString | src/main/java/lang/celadon/Mutant.java:82-103 | the loop builds the mutant's rendering from its title or its fixed body |
| Mutants.MutantTextAgreesWithListText | src/main/java/lang/celadon/Mutant.java:85-101 | with a title, "{mutant title}"; otherwise "{mutant", then the fixed body's list rendering without its brackets, then "}" |
| Runs.Declare | src/main/java/lang/celadon/ARun.java:28-36 | the slicing constructor succeeds iff both ranges are inside the token list. The run holds a fresh Context whose table maps each name to the same binding list as the declaring context, so the lists are shared (`Contexts.PushThroughCopy`). It keeps the title, names and body are the two slices, and bodyFixed equals body |
| Runs.Native | src/main/java/lang/celadon/ARun.java:41-48 | the context/title constructor holds a fresh Context over the declaring context's binding lists, keeps the title, and leaves names, body and bodyFixed null |
| Runs.Text | src/main/java/lang/celadon/ARun.java:58-84 | every rendering starts with "{fn " |
| Runs.DeclaredText | src/main/java/lang/celadon/ARun.java:61-83 | for a run with names and a fixed body: with a title, "{fn title}"; otherwise "{fn [", the names joined by spaces, " ] ", the fixed body joined by spaces, and "}" |
| Runs.NativeTextIsFixed | src/main/java/lang/celadon/ARun.java:63-65 | an untitled run without names renders as the fixed unknown-name text, whatever context it holds |
| Runs.UnknownTextUnbalanced | src/main/java/lang/celadon/ARun.java:64 | every rendering ends in "}" except the unknown-name text, which ends in ")" |
| Runs.CorrectedTextDelimited | src/main/java/lang/celadon/ARun.java:64 | with the unknown-name text closed by "}", every rendering is "{fn ...}", and it differs from the as-written one only in that case |
| StackTables.Find | src/main/java/lang/celadon/StackMap.java:574-587 | the probe finds the first slot of the run from the home slot that holds the key, before the run's empty slot, or reports that none does |
| StackTables.Remove | src/main/java/lang/celadon/StackMap.java:563-588 | remove returns what get returned before. An absent key changes nothing and returns the default |
| StackTables.RemoveAt | src/main/java/lang/celadon/StackMap.java:1072-1085 | an index outside order changes nothing and returns the default; inside it returns the slot's value and one entry goes |
| StackLaws.PutAbsent | src/main/java/lang/celadon/StackMap.java:479-484 | put of an absent key appends one new slot at the end of order, grows size by one, returns the default, and get then answers v |
| StackLaws.PutPresent | src/main/java/lang/celadon/StackMap.java:485-487 | put of a present key returns the previous get and makes get answer v; one new slot holding the displaced value goes at the end of order, and size grows by one |
| StackLaws.AppendKeeps | src/main/java/lang/celadon/StackMap.java:350-382 | append fills the first empty slot of the run and adds it at the end of order, keeping the table's invariant |
| StackLaws.AppendAndOverwriteKeeps | src/main/java/lang/celadon/StackMap.java:387-432 | appendAndOverwrite keeps the invariant: v goes in the key's first slot and the displaced value in the next empty slot, which goes last in order |
| StackLaws.SetOverwrites | src/main/java/lang/celadon/StackMap.java:559-561 | set returns the old get and makes get answer v, adding no slot when the key is present |
| StackLaws.RemoveKeeps | src/main/java/lang/celadon/StackMap.java:563-588 | remove keeps the invariant and returns the old get; an absent key changes nothing, and a present one loses one entry |
| StackLaws.RemoveEntryKeeps | src/main/java/lang/celadon/StackMap.java:278-300 | removeEntry keeps the invariant and removes exactly one entry |
| StackLaws.RemoveAtKeeps | src/main/java/lang/celadon/StackMap.java:1072-1085 | removeAt keeps the invariant |
| StackLaws.PutAndMoveToFirstAddsFirst | src/main/java/lang/celadon/StackMap.java:650-691 | putAndMoveToFirst always takes a new, previously empty slot, lists it first, grows size by one and returns the default, even for a present key |
| StackLaws.PutAndMoveToLastAddsLast | src/main/java/lang/celadon/StackMap.java:703-746 | putAndMoveToLast always takes a new slot, lists it last, grows size by one and returns the default |
| StackLaws.ClearEmpties | src/main/java/lang/celadon/StackMap.java:754-764 | clear leaves an empty table of the same size in which no key is found |
| StackLaws.FixOrderRemoves | src/main/java/lang/celadon/StackMap.java:821-835 | fixOrder(i) removes exactly i from order, keeps the others in their order, returns i's former index and resets first and last |
| StackLaws.FixOrderShiftReplaces | src/main/java/lang/celadon/StackMap.java:845-862 | fixOrder(s, d) puts d where s was in order and keeps first and last as the ends of order |
| StackLaws.LookupIsTop | src/main/java/lang/celadon/StackMap.java:27 | when a key's run is its own, get answers the top of its stack of values |
| StackLaws.StackPush | src/main/java/lang/celadon/StackMap.java:387-432 | put on a key's own run, with an empty slot just after the run's first empty slot, pushes v onto its stack and returns the old top |
| StackLaws.StackPop | src/main/java/lang/celadon/StackMap.java:278-300 | remove on a key's own run pops its stack and returns the old top |
| StackLaws.PopUndoesPush | src/main/java/lang/celadon/StackMap.java:278-300 | removing the slot that the last put added gives back the table from before the put |
| StackLaws.PutThenRemove | src/main/java/lang/celadon/StackMap.java:27 | put(k, v) then remove(k) restores the whole map and returns v, while k's run is its own and the slot just after the run's first empty slot is empty too |
| StackLaws.PutPutRemove | src/test/java/lang/celadon/StackMapTest.java:19-45 | put(k, a); put(k, b); remove(k) returns b and leaves the map as after the first put, where k maps to a, while k's run is its own and the two slots just after the run's first empty slot are empty too |
| StackLaws.SharedRunFindsBoth | src/main/java/lang/celadon/StackMap.java:572-587 | two keys with one home slot are both found on the shared run |
| StackLaws.RemoveOnSharedRun | src/main/java/lang/celadon/StackMap.java:283-290 | removeEntry refills from the end of the whole run. So removing a from a run it shares with b returns a's value, but then a maps to b's value and b is no longer found |
| StackMaps.StackMap.constructor | src/main/java/lang/celadon/StackMap.java:89-91 | a new map has empty arrays of the given size |
| StackMaps.StackMap.FreeSlot | src/main/java/lang/celadon/StackMap.java:361-368 | the probing loop stops at the first empty slot of the run |
| StackMaps.StackMap.Locate | src/main/java/lang/celadon/StackMap.java:574-587 | the probing loop finds the key as the table's search does |
| StackMaps.StackMap.LastOnRun | src/main/java/lang/celadon/StackMap.java:283-288 | the scan stops at the last slot of the run |
| StackMaps.StackMap.Append | src/main/java/lang/celadon/StackMap.java:350-382 | append changes the fields as the table's append does and keeps the invariant |
| StackMaps.StackMap.AppendAndOverwrite | src/main/java/lang/celadon/StackMap.java:387-432 | likewise for appendAndOverwrite |
| StackMaps.StackMap.Put | src/main/java/lang/celadon/StackMap.java:479-488 | put changes the fields as the table's put does. When k's run is its own and the slot just after the run's first empty slot is empty (`RoomAfterRun`), k's stack gains v on top and the old top is returned |
| StackMaps.StackMap.Set | src/main/java/lang/celadon/StackMap.java:559-561 | set changes the fields as the table's set does |
| StackMaps.StackMap.FixOrder | src/main/java/lang/celadon/StackMap.java:821-835 | fixOrder(i) changes order, first and last as the table's fixOrder does and returns the same index |
| StackMaps.StackMap.FixOrderShift | src/main/java/lang/celadon/StackMap.java:845-862 | likewise for fixOrder(s, d) |
| StackMaps.StackMap.RemoveEntry | src/main/java/lang/celadon/StackMap.java:278-300 | removeEntry changes the fields as the table's removeEntry does and keeps the invariant |
| StackMaps.StackMap.Remove | src/main/java/lang/celadon/StackMap.java:563-588 | remove changes the fields as the table's remove does. When k's run is its own and non-empty, k's stack loses its top, which is returned |
| StackMaps.StackMap.RemoveAt | src/main/java/lang/celadon/StackMap.java:1072-1085 | removeAt changes the fields as the table's removeAt does |
| StackMaps.StackMap.PutAndMoveToFirst | src/main/java/lang/celadon/StackMap.java:650-691 | putAndMoveToFirst changes the fields as the table's putAndMoveToFirst does |
| StackMaps.StackMap.PutAndMoveToLast | src/main/java/lang/celadon/StackMap.java:703-746 | putAndMoveToLast changes the fields as the table's putAndMoveToLast does |
| StackMaps.StackMap.Clear | src/main/java/lang/celadon/StackMap.java:754-764 | clear changes the fields as the table's clear does |
| HashCommon.NextPowerOfTwo | src/main/java/lang/celadon/StackMap.java:948-959 | 1 for 0. For 1 <= x <= 2^62, the least power of two at least x. 2^63 for x up to 2^63, and 0 once x - 1 is negative as a long |
| HashCommon.NonNegativeFilled | src/main/java/lang/celadon/StackMap.java:952-958 | for a non-negative long, the smeared value plus one is a power of two above it and at most twice it |
| HashCommon.FilledNegative | src/main/java/lang/celadon/StackMap.java:952-958 | a negative long smears to all ones |
| StackMapUnwrap.CopyOut | src/main/java/lang/celadon/StackMap.java:982-986 | the loop stores min(max, items) elements from offset and returns that count, failing at the first store past the array's end |
| StackMapUnwrap.Unwrap | src/main/java/lang/celadon/StackMap.java:975-987 | as written: IllegalArgument iff max < 0, offset < 0 or the wrapped int sum offset + max exceeds the length; IndexOutOfBounds iff the guard passes but the elements copied do not fit; otherwise the count and the stored elements |
| StackMapUnwrap.UnwrapAll | src/main/java/lang/celadon/StackMap.java:999-1001 | the two-argument unwrap fills the array from 0 with min(length, items) elements and never fails |
| StackMapUnwrap.GuardAdmitsWrappedSum | src/main/java/lang/celadon/StackMap.java:979 | offset 5 and max Integer.MAX_VALUE pass the guard for a ten-element array; the corrected guard refuses them |
| StackMapUnwrap.GuardsAgreeWithoutOverflow | src/main/java/lang/celadon/StackMap.java:979 | when offset + max is an int, the guard as written and the corrected guard agree |
| StackMapUnwrap.UnwrapCorrected | src/main/java/lang/celadon/StackMap.java:1014-1026 | with the overflow-free guard, failure is exactly max < 0, offset < 0 or offset + max > length, and leaves the array alone. Success splices min(max, items) elements into the array at offset |

## Left out

- Regex tokenizing (`Token.tokenize`, `celadon.Tokenizer`) and `Parsing.java` depend on the regexodus library and on `Double.parseDouble`; they are not part of this model.
- Floating-point arithmetic: `Core.asDouble` and the `double` sum in `plus`'s floating branch. A floating value carries its bits, its `longValue()` and its text as data, and only the branch's effect on the deque is modelled.
- `Category.matchBracket` is regexodus code. It is modelled as the swap of `()[]{}` that leaves every other character alone.
- StackMap's parent `OrderedMap` is not part of this model. This leaves out `rehash`, `arraySize`, `get`, `containsKey`, `entryAt`, the float load factors, `putAll`, `putAt`/`insertAt`, `getMany`, `hashCode`, `equals`, `toString`, `MapEntry` and serialization. `get` is modelled as the first-probed value.
- `shiftKeys` is not modelled in general. At the one place `removeEntry` calls it, the slot after the run's end is empty, so it moves nothing.
- `HashCommon.mix` and `CrossHash` hashing are abstract: a StackMap carries its key hash as a function field, and `HasherByName` takes the title hash as a parameter.
- Null keys (`removeNullEntry` and the `containsNullKey` branches) are left out; keys are never null here.
- Identity: `Token.RESERVED` is compared by value, not by reference. Identity hashes and the texts of foreign objects are data in the object's case.
- `Context.step` and `IMorph.morph` are oracles (`Reduction` and `Morph`). `parse` calls `morph` with three arguments while `IMorph` declares four; the oracle takes the list, the range and the handler.
- Contexts.Context.Parse: the scan runs with a fuel bound, and runs out of fuel instead of looping when a handler keeps the scan from ending. It also requires that the token list is not one of the context's own binding lists (`tokens !in table.Values`). Java accepts such a list, and a handler's rewrite would then change a binding as well.
- The `ARun()` no-argument constructor calls `new Context(true)`, which is not declared, and `ARun.run` is abstract; neither is modelled.
- The `Mutant` branch for a null `bodyFixed` cannot be reached, because the constructor always sets it; its text is not modelled.
- Mutants.Refill treats only a token list as a `Collection`, because token lists are the only collections among the modelled objects. In Java any other non-empty collection payload would also be spliced in element by element.
- `subList`'s `IllegalArgumentException` for a reversed range is folded into `IndexOutOfBounds`.
- `TSet`, `old/TSet`, `old/Wrappers`, `Table`, `Tools`, `Operator`, `Manager`, `Exchange`, `Procedural`, `Methodical` and `Syntax` are wrappers over unseen libraries, global state or plain declarations. Only the values of `Syntax` appear, as a datatype.
- `unwrap`'s `ValueIterator` and `objectUnwrap`'s iterator are the sequence of values they would yield.
- Strings are sequences of Unicode scalar values, not of UTF-16 code units. A character outside the Basic Multilingual Plane counts as one unit, where Java counts a surrogate pair as two. For such text this changes `String.hashCode` (`JavaLang`), the token hash fold (`Lexeme.HashCode`), and bracket lengths and `charAt` in `Lexeme.BracketsMatch`.
- StackMaps.StackMap.Put, Append, AppendAndOverwrite, Set, PutAndMoveToFirst and PutAndMoveToLast require `size < maxFill`, so the rehash at the end of an insertion never fires.
- StackMaps.StackMap.Remove, RemoveEntry and RemoveAt require that the removal does not shrink the table (`!Shrinks()`), so the halving rehash never fires.
- StackMaps.StackMap.Put and Remove state the stack behaviour only while the key's probe run holds no other key. Put also requires that the slot just after the run's first empty slot is empty (`RoomAfterRun`), where the displaced value lands; otherwise that value lands past another key's entries. `StackLaws.StackPush` and `StackLaws.PutThenRemove` require the same empty slot, and `StackLaws.PutPutRemove` requires the two slots after it to be empty.
- StackLaws.RemoveOnSharedRun proves that `removeEntry` loses another key's entry when that entry follows in the same block of occupied slots. This contradicts the class's promise of a stack per key. No corrected removal is modelled: keeping both keys would mean emptying a slot in the middle of the block and closing the gap with `shiftKeys`, which is not modelled in general. For that reason this is not listed as a finding.
- StackMaps.StackMap.PutAndMoveToLast requires a non-empty map. On an empty map the source reads `order.peek()` of an empty list, which belongs to the unseen `IntVLA`.
- StackMaps.StackMap.constructor takes the table size and fill threshold directly, rather than computing them from the expected size and a float load factor.
- Mutants.Mutant.constructor requires a valid body range; `Mutants.NewMutant` states the failure outside it.
- StackMapUnwrap.Unwrap requires int-range offset and max and an array shorter than 2^31, as Java's types guarantee.

## Findings

| source | as written | input that shows it | evidently intended | confidence | as-written member | corrected member |
|---|---|---|---|---|---|---|
| src/main/java/lang/celadon/Core.java:51 | the integral branch tests `exchange.isEmpty()` where it means the opposite, so with a second element present it pushes the first back unchanged | exchange [1L, 2L]: plus leaves [1, 2] | [3]: the two heads added | not executed | Numeric.PlusIgnoresSecondOperand | Numeric.PlusIntendedAdds |
| src/main/java/lang/celadon/Mutant.java:71 | morph returns `tokens.size()` after splicing in a collection | a one-token collection refilled into [x, y] over [0, 1) returns 2 | the number of tokens refilled (1), as the IMorph contract asks | not executed | Mutants.CountIsListSize | Mutants.Mutant.MorphCorrected |
| src/main/java/lang/celadon/ARun.java:64 | the unknown-name rendering ends with ")" while it opens with "{" | a run built by the `ARun(context)` constructor, with no title | a text closed by "}" like every other rendering | not executed | Runs.UnknownTextUnbalanced | Runs.CorrectedTextDelimited |
| src/main/java/lang/celadon/StackMap.java:979 | the guard `offset + max > array.length` adds two ints, which can wrap negative and pass | offset 5, max Integer.MAX_VALUE, ten-element array: the guard passes and the loop stores past the end. The overflow is latent: both four-argument methods are private, and their only callers (StackMap.java:1000 and 1037) pass (0, array.length), which cannot overflow | the guard `max > array.length - offset`, which rejects it | not executed | StackMapUnwrap.GuardAdmitsWrappedSum | StackMapUnwrap.UnwrapCorrected |
| src/main/java/lang/celadon/Context.java:17-20 | the copy constructor copies only the outer map, so the copy and the original share every binding list | bind "x" to 1, copy the context, push 2 on "x" through the copy: the original's peek of "x" answers 2 | Mutant and ARun take the copy as the closure's own context, so pushes on one should not show in the other | not executed | Contexts.CopySharesBindings | Contexts.SnapshotKeepsBindings |
