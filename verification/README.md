# Verified models of the EPIC client's data structures

This project models, in Dafny, four self-contained parts of the EPIC IRC client
and proves what they are for:

- **cJSON and its utilities** (`source/cJSON.c`): the recursive-descent parser, with
  the grammar of exactly the texts that it takes, and the growing or preallocated
  print buffer, the round trip between them, the in-place minifier, the doubly linked child lists with their merge sort and the
  duplicate that repairs them, the two comparisons, JSON Pointer (RFC 6901), JSON
  Patch (RFC 6902) and Merge Patch (RFC 7396), generation and application.
- **The indexed arrays** (`source/array.c`): strings by item number and an index
  sorted by string, kept sorted by every update or sorted on demand.
- **The alist** (`source/alist.c`, `include/alist.h`): the sorted resizable table
  with a hash in front of its string comparison.
- **The symbol stacks** (`source/alias.c`): several kinds of value pushed on and
  popped from one chain of saved records per symbol.

What the source does by expressions and recursion is written as functions; what
it does by updating things in place is written as methods on classes and arrays,
each proved against such a function. The lemmas are about those functions.

## How it is laid out

| files | what they hold |
|---|---|
| `Sequences`, `CStrings`, `Decimals`, `JsonValues` | C strings and `strcmp`, case folding, decimals; JSON trees and their meaning (objects as maps) |
| `JsonText`, `Printer` | the text of a tree; the print buffer that writes it |
| `ParseSpec`, `Parser`, `UnicodeEscapes` | what the parser reads; the parse buffer that reads it; `\u` escapes |
| `Grammar`, `StringGrammar`, `ValueGrammar`, `AcceptedText`, `Documents` | the grammar of RFC 8259 with the parser's liberties, as syntax trees; every text of it is read as its value, and nothing else is read |
| `ParseRoundTrip`, `RoundTrip` | parsing what was printed; printing, minifying and parsing in buffers |
| `Minify`, `MinifyText`, `Comments` | the minifier in place; formatted text minified; documents with comments minified |
| `ChildList`, `SortList`, `ListRuns`, `TreeCopy` | child lists and the merge sort on linked nodes; what a sorted list does with an addition; runs of edits; copying a whole tree of nodes |
| `Members`, `Compare` | member lists by value, the sort as a function, both comparisons, and how the sorting one leaves the trees |
| `FoldedNames`, `FoldedMeanings`, `MergeFolded`, `PatchFolded` | what ignoring case means for comparing, merging and patching documents that spell names differently |
| `Pointers`, `PointerDecoding`, `PointerSpelling` | RFC 6901: finding and following pointers; the in-place decoder; which pointers lead where |
| `MergeValues`, `MergePatch`, `MergeRoundTrip` | RFC 7396 on values, the code on trees, and when a generated patch leads to what was wanted |
| `JsonPatch`, `PatchLocality`, `PatchTurns`, `PatchRoundTrip`, `PatchOperations`, `PatchPlaces` | RFC 6902: generating and applying; what each operation does at every place and with which status it fails; patches below a child; what the patches for one array or object do; when they give the second document; test, move and copy |
| `PatchSteps`, `PatchOrder` | the case-sensitive patches among names that differ in case only: what they do to the list of members, and in which order of members they work |
| `CaseClashes` | what names that differ in case only do to the utilities |
| `AlistSpec`, `Alist`, `AlistRuns` | the table of `alist.c`, and runs of its operations |
| `ArraySpec`, `IndexedArray`, `ArrayRuns` | the arrays of `array.c` |
| `SymbolSpec`, `Symbols` | the symbol table of `alias.c` |

`dafny verify dfyconfig.toml` checks everything.

## Where the code does not do what it is for

Each of these is proved as a fact about the model, with the exact condition
where one could be given:

- `cJSON_Minify` turns formatted text into unformatted text exactly when no name
  and no string ends in a backslash, strings that only closing brackets of arrays
  follow excepted (`MinifyText.MinifyFormatted`). A backslash inside a string does
  no harm; only one just before the closing quote does
  (`MinifyText.LeavesString`), as in an object whose one name is a backslash
  (`MinifyText.BackslashNotMinified`).
- `decode_pointer_inplace` gives a key back exactly when it survives
  (`PointerDecoding.DecodeUndoesEncode`); `a~b` does not. So the patches from one
  document to another give the second exactly when every name in which the path of
  one of them ends survives; names that are only passed through may be anything
  (`PatchRoundTrip.JsonPatchRoundTrip`). The patch that is to remove `a~b` from
  an object fails (`PatchRoundTrip.TildeNameStays`).
- `detach_path` removes the member that its path names exactly when no earlier
  member of the same object differs from that name in case only
  (`CaseClashes.DetachPathIsExact`); asked for `/a` in `{"A": 1, "a": 2}` it takes
  `A` away (`CaseClashes.DetachesTheOther`). The case-sensitive functions share it, so
  the patches from `{"A": 1, "a": 2}` to `{"A": 1}` lead there only if `a` is in front
  (`PatchOrder.FirstNameGoes`). In general, where all names in which a path ends
  survive, they lead there exactly if, in each object they reach, of two names that
  differ in case only the one removed or replaced comes before the one kept, and a
  replaced one is out before it is added again (`PatchOrder.OrderedRoundTrip`).
- The merge patch generators walk with `strcmp` what may have been sorted ignoring
  case, and the walk can part a name that both objects have. The patch is right
  exactly if, wherever two objects are walked, every wanted name is met in both at
  once, or removed before it is added and then added whole
  (`MergeRoundTrip.MergePatchRoundTrip`). Ignoring case, that goes for a name that the
  two spell differently, too (`MergeFolded.FoldedMergeRoundTrip`): from `{"name": 1}` to
  `{"Name": 1}` it is added, then removed, and lost (`MergeFolded.RespelledMember`). Names that are added first are lost, in
  the case-sensitive generator too, which calls the other one for inner objects:
  from `{"o": {"a": 1, "A": 2}}` to `{"o": {"A": 2}}` its patch leads to `{"o": {}}`
  (`CaseClashes.MergePatchCaseClash`, for any two names that the two orders do not
  sort alike). What decides is the order in which the comparison has left the inner
  objects, not the one they were given in (`CaseClashes.SameNamesMerge`). An outermost object that is sorted in
  `strcmp`'s order always passes, and so does whatever folding case does not
  reorder (`MergePatch.AlignedTogether`), for instance names without capitals
  (`Members.LowerCaseMonotone`).
- A merge patch is enough exactly when no null member has to appear
  (`MergeValues.MergeDifference`).
- `sort_list` leaves the first `prev` pointing at the child that was last before, or
  NULL. The list is whole again only if its first and last child have not moved
  (`SortList.SortedWhole`), and only then does a later `add_item_to_array` append
  (`SortList.AddedAtEnd`, `SortList.SortAndAdd`). If the first child has moved, the
  item is dropped and success reported. If only the last one has, the item goes
  behind the child that was last, and every child sorted behind that one is cut
  off: adding `d` to the sorted `a`, `c`, `b` leaves `a`, `b`, `d`
  (`SortList.MemberCutOff`). `cJSON_Duplicate` repairs the links at every depth
  (`TreeCopy.Duplicate`).
- `cJSON_PrintPreallocated` needs two bytes more than the text, not the five its
  header asks for (`Printer.PrintPreallocated`).
- The index decoder takes more than the decimals of section 4 of RFC 6901: nothing at
  all is the first element, and behind a first digit any byte from `0` on counts as
  a digit, so that `1a` is 59 (`PointerSpelling.IndexTaken`,
  `PointerSpelling.NotAnIndex`). A pointer without a leading slash is the whole
  document (`PointerSpelling.NoSlashIsRoot`).
- A replacement without a value fails after it has removed what it was to replace
  (`PatchPlaces.ReplaceLoses`).
- The parser takes control characters inside strings and numbers with leading zeros,
  and a `\u` without four hexadecimal digits as a NUL, which cuts the string off
  (`AcceptedText.ValueRead`, `StringGrammar.Pieced`).
- A move or a copy onto the whole document fails where an addition would replace
  it (`PatchOperations.CopyIsAdd`).
- Popping a command does not bring its argument list back: after any balanced run
  it is what the last alias or deletion of the command left it
  (`Symbols.ListAfterPop`, `Symbols.ArglistAfterPop`).
- The hash in front of the alist's string comparison shifts signed chars. It agrees
  with the comparison exactly for the names whose hash is their first four bytes
  (`AlistSpec.PrefilterExact`).

## Model

| member | source | states |
|---|---|---|
| ParseRoundTrip.PrintThenParse | source/cJSON.c:1106-1184 | For every tree C can hold, formatted or not, parsing the printed text gives the tree back if and only if it nests at most 1000 deep |
| ParseRoundTrip.ParsesText | source/cJSON.c:1323-1375 | The same at any place of a larger text, at any depth that leaves room: the value and the offset behind it |
| ParseRoundTrip.ParsesMembers | source/cJSON.c:1612-1727 | The members of a printed object are read back in order, up to and with the closing brace |
| ParseRoundTrip.ParsesQuoted | source/cJSON.c:784-910 | A printed string, with all its escapes, is read back as the string |
| ParseRoundTrip.ParsesInt | source/cJSON.c:310-384 | A printed 32-bit integer is read back, wherever no further number character follows |
| ParseRoundTrip.NestingBounded | source/cJSON.c:1452-1461 | Whatever the bytes are, a tree that comes out of the parser nests no deeper than the limit |
| StringGrammar.ReadsLiteral | source/cJSON.c:784-910 | Every string of section 7 of RFC 8259, each byte as itself, as one of the eight short escapes or as a `\u` escape with digits in either case, is read as what it spells, up to its closing quote |
| StringGrammar.ReadIsLiteral | source/cJSON.c:784-910 | Whatever is read as a string is such a text, but for what follows a `\u` without four digits, and is read as what it spells up to there |
| ValueGrammar.ReadsWritten | source/cJSON.c:1323-1375 | Every text of the grammar, with white space in all places where section 2 allows it, is read at any offset as the value it stands for, up to where it ends |
| ValueGrammar.ReadsElements | source/cJSON.c:1477-1522 | The same for the elements of an array |
| ValueGrammar.ReadsEntries | source/cJSON.c:1640-1705 | The same for the members of an object |
| AcceptedText.ValueRead | source/cJSON.c:1323-1727 | Conversely, whatever the parser reads anywhere is a text of the grammar, and what comes out is what that text stands for |
| Documents.ParsesDocument | source/cJSON.c:1106-1184 | A C string with a document of the grammar, with or without a byte order mark and with white space around it, is parsed to its value if and only if that nests at most 1000 deep |
| Documents.OnlyDocuments | source/cJSON.c:1106-1184 | Only such documents are parsed: behind the value come white space and the terminator if that is required, otherwise anything |
| UnicodeEscapes.Utf8RoundTrip | source/cJSON.c:727-775 | The bytes written for any code point decode, by RFC 3629, to that code point |
| UnicodeEscapes.EscapeDecodes | source/cJSON.c:663-781 | Every scalar value written as one or two escapes, with digits in either case, becomes its UTF-8 encoding, and the escape is consumed whole |
| UnicodeEscapes.LoneLowSurrogate | source/cJSON.c:680-686 | A low surrogate with no high one before it is refused |
| Parser.ParseBuffer.Value | source/cJSON.c:1323-1375 | The parser on its buffer agrees with the reading function: value, offset and restored depth on success, failure exactly when it fails, for every byte string |
| Parser.ParseBuffer.Items | source/cJSON.c:1477-1522 | The loop over array elements agrees with the recursive reading, the step back before the first element included |
| Parser.ParseBuffer.Members | source/cJSON.c:1640-1705 | The same for the members of an object |
| Parser.ParseBuffer.String | source/cJSON.c:784-910 | Two passes over a string literal agree with scanning for its end and decoding its escapes; the second writes into the buffer the first has measured, and every write is inside it |
| Parser.RoomStep | source/cJSON.c:797-892 | No turn of the second pass writes more bytes than the first pass has counted for the bytes it reads, even where the two passes disagree about where an escape begins |
| Parser.ParseBuffer.Literal | source/cJSON.c:822-892 | The bytes written never exceed the allocation, with one left for the terminator, and are the decoded string |
| Parser.Parse | source/cJSON.c:1106-1184 | The whole entry point terminates on every input and agrees with the reading function, byte order mark and terminator included |
| RoundTrip.ParseWhatWasPrinted | source/cJSON.c:1186-1266 | Printing into the growing buffer and parsing what it holds is the identity exactly within the nesting limit |
| Printer.PrintBuffer.Ensure | source/cJSON.c:450-533 | Room is made exactly when the limit allows it, by doubling up to that limit, what was written stays, and the limit of a caller's buffer is its length |
| Printer.CountEscapes | source/cJSON.c:913-975 | The first pass over a string counts exactly the bytes that the second will write |
| Printer.PrintString | source/cJSON.c:977-1032 | The second pass writes the quoted text behind what the buffer held, without running over the room made |
| Printer.PrintValue | source/cJSON.c:1378-1449 | Printing succeeds exactly when text, terminator and one byte fit, and the buffer then holds what it held and the text |
| Printer.PrintObject | source/cJSON.c:1730-1841 | The same for objects, with their tabs and line ends |
| Printer.Print | source/cJSON.c:1198-1266 | The growing buffer returns the text, up to the size limit of an int |
| Printer.PrintPreallocated | source/cJSON.c:1303-1320 | Printing into a caller's buffer succeeds exactly when the text and two bytes fit, and then it is there as a C string |
| JsonText.TextHasNoNul | source/cJSON.c:913-1032 | No printed text contains a NUL, so what is printed is what C sees |
| JsonText.ObjectLines | source/cJSON.c:1730-1841 | Formatted, an object is its members between two braces, the closing one indented as deep as the object |
| JsonText.MemberLine | source/cJSON.c:1769-1826 | Each member is a line of its own, behind a tab for each object it is in, with a tab behind the colon |
| JsonText.OneItem | source/cJSON.c:1550-1610 | Elements follow each other behind a comma, and a blank when formatted |
| JsonText.ArrayLine | source/cJSON.c:1550-1610 | An array is its elements between brackets, on one line |
| Minify.Minify | source/cJSON.c:2859-2905 | In one buffer, the write position never passing the read position, the C string becomes what one pass over it means, and nothing behind it is touched |
| Minify.MinifyString | source/cJSON.c:2836-2857 | A string literal moves to the write position byte by byte, up to where the scan leaves it |
| Comments.LineCommentGoes | source/cJSON.c:2810-2821 | A line comment goes with its line end and nothing behind it; an unfinished one goes to the end |
| Comments.BlockCommentGoes | source/cJSON.c:2823-2834 | A block comment goes up to its first end and nothing behind it; an unfinished one goes to the end |
| Comments.OtherKept | source/cJSON.c:2859-2905 | Any other byte between tokens stays, but for a slash, which goes alone |
| Comments.MinifiesDocument | source/cJSON.c:2859-2905 | A document with any comments and white space around all of its tokens comes out as the tokens alone, as long as no string ends in a backslash |
| Comments.CommentsGo | source/cJSON.c:2859-2905 | Put between the tokens of an unformatted text, comments and white space leave that text |
| Comments.MinifyThenParse | source/cJSON.c:2859-2905 | Minified and then parsed, such a document gives the value it stands for, within the nesting limit |
| RoundTrip.ParseWhatWasMinified | source/cJSON.c:2859-2905 | The same on the buffer that is minified in place |
| MinifyText.MinifyFormatted | source/cJSON.c:2859-2905 | Minifying formatted text gives unformatted text if and only if no name or string ends in a backslash, strings that only array brackets follow excepted |
| MinifyText.LeavesString | source/cJSON.c:2836-2857 | The scan leaves a printed string at its closing quote, unless it ends in a backslash: then it goes on to the end of a further string |
| MinifyText.BackslashNotMinified | source/cJSON.c:2836-2905 | The formatted text of an object with the one name backslash comes out with its white space |
| MinifyText.MinifyIdempotent | source/cJSON.c:2859-2905 | Minifying twice is minifying once, for every text |
| RoundTrip.MinifyWhatWasPrinted | source/cJSON.c:2859-2905 | The condition decides whether the minified buffer equals what the unformatted printer returns |
| ChildList.AddItemToArray | source/cJSON.c:1972-2003 | On a linked list the item goes behind the child that the first prev points at and cuts off what was behind that, which appends if it is the last one; where the first prev is NULL the item is dropped; the result is true in all cases |
| ChildList.InsertItemInArray | source/cJSON.c:2279-2311 | Inserts before the item at the index or at the end, keeping all links |
| ChildList.DetachItemViaPointer | source/cJSON.c:2203-2237 | Removes the item from the sequence, first, last or only one included, and leaves it without links |
| ChildList.DetachItemFromArray | source/cJSON.c:2239-2247 | The same by index; an index out of range changes nothing |
| ChildList.ReplaceItemViaPointer | source/cJSON.c:2313-2360 | Puts the replacement in the place of the item, the only child included |
| ChildList.InsertedNexts | source/cJSON.c:2299-2309 | The next links an insertion sets are those of the longer list |
| ChildList.RemovedPrevs | source/cJSON.c:2210-2229 | The prev links a removal sets are those of the shorter list |
| ChildList.GetArrayItem | source/cJSON.c:1867-1884 | The item at an index, or NULL behind the last |
| SortList.Sort | source/cJSON.c:3603-3712 | On every chain the relinking merge sort ends with the same nodes, linked both ways and ended by NULL, in the order of the value sort; the prev of the first node is what it was or NULL |
| SortList.MergeLists | source/cJSON.c:3654-3709 | The merge of two sorted chains is the merge of their values, the second going first on a tie |
| SortList.SortedWhole | source/cJSON.c:3714-3721 | After sorting, the child list is whole again if and only if the first and the last child are where they were |
| SortList.SortAndAdd | source/cJSON.c:1972-2003 | Sorting a child list and then adding to it: the children in the end, for every list with unique names, and that the item is appended if and only if the first and last child stayed in place |
| SortList.AddedAtEnd | source/cJSON.c:1972-2003 | The same equivalence for the members by value |
| SortList.MemberCutOff | source/cJSON.c:1972-2003 | Three members of which adding a fourth loses one |
| ListRuns.Run | source/cJSON.c:1972-2370 | Over any run of additions, insertions, detachments and replacements the list stays whole and its members are what editing the sequence gives |
| SortList.JoinLinked | source/cJSON.c:3687-3709 | An open chain and a closed one join into one that is linked both ways |
| TreeCopy.Duplicate | source/cJSON.c:2727-2808 | A duplicate has fresh nodes with the same values nested in the same way, no node twice, and whole links at every depth, whatever the prev links of the original are; without recursion it is the one node |
| TreeCopy.DuplicateBelow | source/cJSON.c:2770-2797 | The walk along the next links copies every child with what is below it, in order, and closes the list of the copies |
| Members.SortIsSorted | source/cJSON.c:3603-3712 | The sort orders the members by name |
| Members.PermutedMeaning | source/cJSON.c:3714-3721 | Reordering the members of an object with unique names does not change what it means |
| Members.SortObject | source/cJSON.c:3714-3721 | An object comes out strictly sorted in the order asked for, unless two names differ in case only and case is ignored, and means the same |
| Members.LowerCaseMonotone | source/cJSON.c:3714-3721 | On names without capitals the two orders are one |
| Members.FindMeaning | source/cJSON.c:1896-1926 | Looking a name up is looking it up in the map the object means |
| Compare.CompareByLookup | source/cJSON.c:3007-3130 | The loops of the lookup comparison decide its recursive definition |
| Compare.LookupDecidesMeaning | source/cJSON.c:3007-3130 | That comparison holds if and only if the trees mean the same (where case is ignored, as long as no two names of a pair of corresponding objects differ in case only) |
| Compare.CompareJson | source/cJSON.c:3723-3809 | The sort-then-walk comparison decides its recursive definition, and leaves both trees sorted in place as far as it went |
| Compare.LeftMeans | source/cJSON.c:3723-3809 | What it leaves behind means what it meant before |
| Compare.SortedDecidesMeaning | source/cJSON.c:3723-3809 | It too holds if and only if the trees mean the same, under the same premise |
| Compare.ComparisonsAgree | source/cJSON.c:3007-3809 | So the two comparisons agree on them |
| FoldedNames.LookupFolds | source/cJSON.c:3007-3130 | Ignoring case, the lookup comparison of any two trees is the one that heeds case, with all names folded |
| FoldedNames.LookupDecidesFolded | source/cJSON.c:3007-3130 | So, for all trees each of which has no two names in one object that differ in case only, it holds if and only if they mean the same with their names folded |
| FoldedNames.SortedFolds | source/cJSON.c:3723-3809 | The sorting comparison, ignoring case, is the one that heeds case, with all names folded |
| FoldedNames.SortedDecidesFolded | source/cJSON.c:3723-3809 | It decides the same for the same trees |
| FoldedNames.FoldedComparisonsAgree | source/cJSON.c:3007-3809 | So the two comparisons agree on them when case is ignored |
| FoldedNames.FoldSame | source/cJSON.c:138-158 | Two names are the same ignoring case exactly if they have the same length and differ at most in the case of letters |
| Pointers.EncodeStringAsPointer | source/cJSON.c:3305-3327 | The loop writes the token encoding of RFC 6901 |
| Pointers.FindPointerFinds | source/cJSON.c:3330-3390 | The search from a root finds the pointer text of every descendant, and of nothing else |
| Pointers.EncodedMatches | source/cJSON.c:3252-3286 | A name matches the start of a pointer exactly if the pointer goes on with the encoding of that name, or of one that differs in case only when case is ignored |
| Pointers.DecodesDecimal | source/cJSON.c:3393-3418 | The decimal of every index below the width of size_t decodes to it, and to nothing else before an end of token |
| Pointers.PathLocates | source/cJSON.c:3420-3465 | Following the pointer text of a position leads to that position |
| Pointers.PointerRoundTrip | source/cJSON.c:3330-3475 | The pointer found from a root to any descendant evaluates back to that node, with and without case, for arbitrary names that are unique as they are compared, tildes, slashes and empty names included |
| Pointers.GetItemFromPointer | source/cJSON.c:3420-3465 | The loops over tokens and children agree with the recursive evaluation |
| PointerSpelling.LocateExact | source/cJSON.c:3420-3465 | A pointer is followed to a position if and only if it spells the path text of that position, but for case when that is ignored, on all documents and all pointers whose array tokens are decimals or start with no digit |
| PointerSpelling.Matches | source/cJSON.c:3252-3286 | A token is compared equal to a name exactly if it is the encoding of that name as it is compared |
| PointerSpelling.IndexTaken | source/cJSON.c:3393-3418 | Which tokens are taken for an index: nothing, a zero, or a digit from 1 and then bytes from `0` on |
| PointerSpelling.NotAnIndex | source/cJSON.c:3393-3418 | Two tokens that are no indices and are taken for some |
| PointerSpelling.NoSlashIsRoot | source/cJSON.c:3420-3465 | A pointer that does not start with a slash leads to the root |
| PointerDecoding.DecodePointerInPlace | source/cJSON.c:3478-3509 | The in-place decoder on its buffer agrees with the decoding function |
| PointerDecoding.DecodeUndoesEncode | source/cJSON.c:3478-3509 | Decoding gives an encoded name back if and only if it has no slash and every byte behind a tilde happens to be in place |
| PointerDecoding.DecodedIsBetter | source/cJSON.c:3478-3509 | Encoding and decoding a name again and again, the first place where it is spoilt only moves back, so no name comes back after several rounds that did not after one |
| PointerDecoding.AllDecodedSurvive | source/cJSON.c:3478-3509 | If each name of a finite set is what the decoder makes of one of them, all of them survive |
| PointerDecoding.TildeInKeyIsLost | source/cJSON.c:3478-3509 | A concrete name that does not come back |
| PointerDecoding.DecodePlain | source/cJSON.c:3478-3509 | Text without a tilde is left alone |
| MergeValues.MergeIdempotent | source/cJSON.c:4430-4488 | The MergePatch function of section 2 of RFC 7396 is idempotent |
| MergeValues.MergeDifference | source/cJSON.c:4500-4580 | Merging the difference of two values gives the second if and only if no null member has to appear |
| MergePatch.ApplyMergePatch | source/cJSON.c:4430-4488 | The loop over the patch members agrees with the recursive merge |
| MergePatch.MergedMeaning | source/cJSON.c:4430-4488 | Merging trees computes the MergePatch function of RFC 7396 on what they mean (where case is ignored, as long as no two names of a patch object and of what it is merged into differ in case only) |
| MergePatch.MergePatchIdempotent | source/cJSON.c:4430-4488 | Applying the same merge patch twice is applying it once, under the same premise |
| FoldedNames.MergedFolds | source/cJSON.c:4430-4488 | Merging any patch into any target ignoring case is merging it heeding case, with all names folded |
| FoldedNames.MergedFoldedMeaning | source/cJSON.c:4430-4488 | So for target and patch each without repetitions it computes the MergePatch function of RFC 7396 on what they mean with their names folded |
| FoldedNames.MergeFoldedIdempotent | source/cJSON.c:4430-4488 | And applying the patch twice is applying it once |
| FoldedNames.MergedSpelling | source/cJSON.c:4430-4488 | Ignoring case, the members after a merge are exactly those of the target that the patch has in no spelling, and what the patch has that is not null, in the patch's spelling |
| MergePatch.GenerateMergePatch | source/cJSON.c:4500-4580 | The walk over two sorted child lists agrees with the recursive generator; inner patches are generated from the trees as the comparison has left them |
| MergePatch.GeneratedMeaning | source/cJSON.c:4500-4580 | Where the walk keeps common names together, the generated patch means the difference of the two objects, and none is generated if there is no difference |
| MergePatch.AlignedTogether | source/cJSON.c:4515-4548 | It does so wherever folding case keeps the order of the names of two corresponding objects, and in the outermost object of the case-sensitive generator for any unique names |
| MergePatch.SortedMet | source/cJSON.c:4524-4548 | Lists in strcmp's order are met at every common name |
| MergeRoundTrip.MergedLookup | source/cJSON.c:4430-4488 | Under each name the merged object holds what the patch members of that name, in their order and however many, make of it |
| MergeRoundTrip.GeneratedTrack | source/cJSON.c:4524-4568 | What the generated patch does to a name follows from where the walk finds it: met, removed, added, removed then added, or added then removed |
| MergeRoundTrip.MergePatchRoundTrip | source/cJSON.c:4430-4590 | Merging the generated patch, or none, into the first tree or a duplicate of it in any order gives the second if and only if they are mergeable, a condition on both trees that can be computed beforehand; for all unique names in the case-sensitive functions, otherwise as long as no two names that meet differ in case only |
| MergeRoundTrip.MergeableTogether | source/cJSON.c:4430-4590 | Where common names stay together, that is the case exactly if the trees are equal or no null member has to appear |
| MergeFolded.FoldedTrack | source/cJSON.c:4524-4568 | What the generated patch does to a name, in whatever spelling the two objects have it, follows from where the walk finds it |
| MergeFolded.FoldedMergeRoundTrip | source/cJSON.c:4430-4590 | Ignoring case, merging the generated patch, or none, into the first tree or a duplicate gives what means the second with names folded if and only if they are mergeable, for all trees without repetitions, spelled alike or not |
| MergeFolded.RespelledMember | source/cJSON.c:4524-4568 | For objects of one member, spelled differently: mergeable exactly if the old spelling comes first in strcmp's order and the value holds no null member |
| FoldedMeanings.FoldedIsFolded | source/cJSON.c:138-158 | What a tree means with its names folded is a function of what it means |
| PatchLocality.LiftPatch | source/cJSON.c:3916-4145 | A patch whose path leads through a child does to that child, status included, what the patch with the rest of the path does to it alone, and leaves everything else as it is |
| PatchLocality.PatchesAnywhere | source/cJSON.c:3916-4388 | The patches generated for any two nodes, applied at any position of any document, change the node there as they change it alone and nothing else, or fail as they fail alone |
| PatchTurns.ItemsRun | source/cJSON.c:4279-4321 | On an array of the right length they succeed if and only if they do on each common element, and then the rest is removed or added |
| PatchTurns.WalkShows | source/cJSON.c:4324-4388 | On an object, whatever it holds, each of them acts on the name its last token is decoded to, turn by turn, and fails exactly if that is not there to be removed |
| PatchRoundTrip.RunFits | source/cJSON.c:3916-4388 | If the names the turns end in survive, and the nested patches work, every name ends up as wanted and no other is touched |
| PatchRoundTrip.SettlingFits | source/cJSON.c:3916-4388 | Conversely, if every name ends up as wanted, all those names survive and the nested patches work: mistakes cannot make up for each other |
| PatchRoundTrip.JsonPatchRoundTrip | source/cJSON.c:4147-4418 | Applying the patches from one document to another to a duplicate of the first returns 0 and gives the second, up to member order, if and only if every name in which one of their paths ends survives the decoder; with and without case, as long as in no pair of corresponding objects two names, or what the decoder makes of them, differ in case only |
| PatchRoundTrip.PatchesSucceed | source/cJSON.c:4147-4418 | If they survive, it does so whatever the decoder would make of other names |
| PatchFolded.CreateRespelled | source/cJSON.c:4250-4388 | Ignoring case, the patches between two documents without repetitions are those to the second with its names spelled as in the first |
| PatchFolded.FoldedRoundTrip | source/cJSON.c:4147-4403 | So applied to a duplicate they succeed and give the second in that spelling, if the names in which paths end survive; and only then, as far as what the decoder makes of the names keeps them apart |
| PatchSteps.TurnGives | source/cJSON.c:3549-4145 | In the case-sensitive functions the patches for one name take out the first member that is the same but for case, put a member at the end, or patch the member of exactly that name, whatever unique names the object has |
| PatchSteps.WalkGives | source/cJSON.c:4147-4388 | All patches for an object do so turn by turn, and fail exactly where a turn fails |
| PatchOrder.Counted | source/cJSON.c:3549-4145 | After any run, of the names that differ in case only no more are left than there were, without those taken out and with those added; as many only if none was overwritten, and then exactly the last ones and those added |
| PatchOrder.OrderExact | source/cJSON.c:3549-4145 | A run over the turns of an object leaves every name as wanted if and only if its names are in place and the nested patches work |
| PatchOrder.PlaceExactlyOrder | source/cJSON.c:3549-4145 | They are in place exactly if of two names that differ in case only the one removed or replaced comes before the one kept, and a replaced one is out before it is added again |
| PatchOrder.OrderedRoundTrip | source/cJSON.c:4147-4418 | So in the case-sensitive functions, for all documents with unique names, if every name in which a path ends survives: the patches give the second document if and only if that holds in each pair of objects they reach |
| PatchOrder.FirstNameGoes | source/cJSON.c:3549-3600 | Of two members whose names differ in case only, one is to go: the patch gives the wanted object if that one is first and does not if it is second |
| PatchRoundTrip.TildeNameStays | source/cJSON.c:3478-3509 | A document for which the patch to remove its only member does not give the empty object |
| JsonPatch.CreatePatches | source/cJSON.c:4250-4388 | The loops append exactly the patches of the recursive generator |
| JsonPatch.ApplyPatches | source/cJSON.c:4147-4203 | The loop applies the patches in order and stops at the first that fails; a test hands on the document in the order in which it has sorted it |
| PatchPlaces.AddRoot | source/cJSON.c:3950-3995 | Added to the whole document, a value replaces it |
| PatchPlaces.RemoveRoot | source/cJSON.c:3950-3995 | Removed, the whole document becomes an item of no valid type |
| PatchPlaces.AddAtIndex | source/cJSON.c:4052-4112 | Adding at any index of any array of any document: it is inserted there if the index is at most the length, and otherwise 10 is returned and the document is as it was |
| PatchPlaces.AddBehind | source/cJSON.c:4082-4095 | Adding at `-` appends |
| PatchPlaces.AddAtName | source/cJSON.c:4113-4125 | Adding at a name of any object: the other members stay and the value comes behind them under that name |
| PatchPlaces.OthersMeaning | source/cJSON.c:4113-4125 | Heeding case, that is an update of the map the object means |
| PatchPlaces.RemoveAtIndex | source/cJSON.c:3998-4013 | Removing at any index: the element goes, or 13 is returned and the document is as it was |
| PatchPlaces.ReplaceAtIndex | source/cJSON.c:3998-4013 | Replacing at any index: the element changes, or 13 is returned and the document is as it was |
| PatchPlaces.RemoveAtName | source/cJSON.c:3549-3600 | Removing at a name: the member goes that has it ignoring case, or 13 is returned |
| PatchPlaces.ReplaceAtName | source/cJSON.c:3998-4125 | Replacing at a name: that member goes and the value comes last under the name asked for, or 13 is returned |
| PatchPlaces.NoIndex | source/cJSON.c:4096-4104 | What does not start like a number names no place in an array: 11, or 13, and the document is as it was |
| PatchPlaces.NoMembers | source/cJSON.c:4127-4132 | Nor is there a place below a value that is no array and no object: 9, or 13 |
| PatchPlaces.NoParent | source/cJSON.c:4077-4081 | Nor where the parent does not exist: 9, or 13 |
| PatchPlaces.MalformedPatch | source/cJSON.c:3916-4050 | A patch without a path, operation, value or source returns 2, 3, 7, 1 or 4, one whose source is no string 5, and the document is as it was |
| PatchPlaces.NamesInAnyCase | source/cJSON.c:3916-4050 | Ignoring case, a patch does the same however its own names are spelled |
| PatchPlaces.FailureKeeps | source/cJSON.c:3916-4145 | Whatever fails and is no replacement, move or test leaves the document as it was |
| PatchPlaces.ReplaceLoses | source/cJSON.c:3998-4050 | A replacement without a value fails with 7 and has removed the old value |
| PatchOperations.TestDecides | source/cJSON.c:3940-3945 | A test returns 0 if and only if the location exists and what it holds means the same as the value, and the document, members reordered, means what it meant |
| PatchOperations.CopyIsAdd | source/cJSON.c:4014-4050 | A copy is the addition of what the source location holds; onto the whole document it fails, and from a place that does not exist it returns 5 and leaves the document alone |
| PatchOperations.MoveIsRemoveThenAdd | source/cJSON.c:4014-4050 | A move is a removal followed by the addition of what was removed; onto the whole document it fails after the removal, and from a place that does not exist it returns 5 and leaves the document alone |
| CaseClashes.DetachPathIsExact | source/cJSON.c:3549-3600 | On any document and path whose parent is an object with the named member, detaching takes exactly that member out if and only if no earlier member differs from the name in case only |
| CaseClashes.DetachesTheOther | source/cJSON.c:3549-3600 | A document and a path for which it takes another member, asked to heed case or not |
| CaseClashes.MergePatchCaseClash | source/cJSON.c:4500-4580 | For any two names that strcmp and the order without case do not sort alike, two documents that are not mergeable: the generated merge patch leads to an empty inner object, although a merge patch could express the step |
| CaseClashes.CrossedNames | source/cJSON.c:138-158 | `A` and `a` are two such names, and so are `B` and `a` |
| CaseClashes.InnerPatch | source/cJSON.c:4532-4564 | The inner patch for them: the member both have is added and then removed |
| CaseClashes.SameNamesMerge | source/cJSON.c:4524-4568 | With two such names in both inner objects the patch gives what was wanted, in whatever order the objects hold them |
| AlistSpec.PrefilterAgrees | include/alist.h:16-36 | Comparing masked hashes first never changes the sign of the comparison of the first strlen(name) bytes, for names whose hash is their first four bytes |
| AlistSpec.PrefilterExact | include/alist.h:16-36 | With signed chars that holds of a name against all such entries if and only if it is such a name |
| AlistSpec.PrefixMonotone | source/alist.c:211-336 | Along a sorted table that comparison only goes down, so its zeros are one block |
| AlistSpec.FoundUnique | source/alist.c:182-210 | Only one count and place answer a search |
| AlistSpec.ExactIsFirst | source/alist.c:315-323 | The count is negative if and only if the name itself is in the table, and then it is the first of the block |
| Alists.Alist.FindStart | source/alist.c:244-286 | The first binary search ends at the start of the block, or at the only place where the name may be inserted |
| Alists.Alist.FindEnd | source/alist.c:286-307 | The second one ends at the last match |
| Alists.Alist.FindAlistItem | source/alist.c:211-336 | The count, its sign and the place are those of the exact block of entries that have the name as a prefix, and the data is that of its first entry |
| Alists.Alist.AddToAlist | source/alist.c:51-85 | The table, as a map, gets the entry and the displaced value is returned; order, uniqueness, hashes, capacity and the bound on moved entries are kept |
| Alists.Alist.RemoveFromAlist | source/alist.c:90-104 | The map loses the name, the removed value is returned, and a prefix of a name removes nothing |
| Alists.Alist.AlistPop | source/alist.c:107-125 | The entry at an index goes, everything behind it moves down, and the table may halve |
| Alists.Alist.AlistLookup | source/alist.c:127-136 | Looking up with removal takes the name out of the map and returns what it held; without, nothing changes and the result is the data of the first entry that has the name as a prefix |
| Alists.Alist.MoveAlistItems | source/alist.c:163-181 | Every slot after a shift up or down, in place and inside the allocation |
| Alists.Alist.CheckAlistSize | source/alist.c:138-156 | The capacity doubles, halves or stays, and the entries are kept |
| AlistRuns.Run | source/alist.c:51-156 | Over any run of additions, removals and pops by index the table is the map that plain map operations give, and resizing has moved at most four entries per operation |
| AlistRuns.PopMap | source/alist.c:107-125 | A pop by index takes out the name that has that many names before it |
| AlistRuns.HistoryForgotten | source/alist.c:51-125 | Two histories that come to the same map leave the same table, entry by entry |
| AlistSpec.PutMap | source/alist.c:51-85 | Putting an entry where the search says is an update of the map the table is |
| AlistSpec.DropMap | source/alist.c:107-125 | Dropping an entry removes its name from that map |
| AlistSpec.PutOrdered | source/alist.c:51-85 | ... and the table stays strictly sorted |
| AlistSpec.CapacityGrows | source/alist.c:138-156 | Insertion: after the check there is room for the shift, capacity stays six times a power of two, at most three times the count unless it is six, and four units pay for the step |
| AlistSpec.CapacityShrinks | source/alist.c:138-156 | Removal: the same, the check coming after it |
| ArraySpec.SortedIndexUnique | source/array.c:227-248 | The order by string and item number admits only one sorted permutation |
| ArraySpec.CountInPermutation | source/array.c:797-801 | Exactly size - item entries of an index are item or more, which is why the renumbering loop may stop early |
| ArraySpec.RenumberedPermutation | source/array.c:793-812 | After renumbering and dropping one entry the index is a permutation of the smaller range |
| ArraySpec.RenumberedSorted | source/array.c:793-812 | ... and still sorted |
| ArraySpec.SortIndexSorts | source/array.c:241-246 | The sort gives a sorted permutation of the same entries |
| IndexedArrays.IndexedArray.FindItem | source/array.c:266-299 | The search returns a place that compares equal, or the complement of the one place that keeps the order, having sorted first if needed |
| IndexedArrays.IndexedArray.InsertIndex | source/array.c:301-317 | Shifting up and writing is inserting the new item number |
| IndexedArrays.IndexedArray.MoveIndex | source/array.c:323-343 | Rotating is taking an entry out and putting it back elsewhere |
| IndexedArrays.IndexedArray.FindIndex | source/array.c:352-371 | The place of an item number is found, by search or by scan |
| IndexedArrays.IndexedArray.SetItem | source/array.c:441-501 | The items are updated or appended to, the index stays a permutation and, unless lazy, sorted; the result codes |
| IndexedArrays.UpdateSorted | source/array.c:451-463 | Moving an entry to the place found for its new string keeps the order |
| IndexedArrays.IndexedArray.Renumber | source/array.c:797-801 | The loop with its early exit renumbers every entry it has to |
| IndexedArrays.IndexedArray.DelItem | source/array.c:765-816 | The item goes, those above it move down, the index stays a sorted permutation; the last item takes the array with it |
| IndexedArrays.IndexedArray.DelItems | source/array.c:822-866 | Exactly the listed items go, in one compaction, and the array is gone if and only if all are listed |
| IndexedArrays.IndexedArray.IFindFirst | source/array.c:889-910 | The first place in the index whose string is the one searched for, or -2 if and only if there is none |
| ArrayRuns.Run | source/array.c:441-866 | Over any run of updates, deletions and mass deletions the items are what plain sequence operations make of them, the invariants hold, and a run without lazy updates and mass deletions leaves a sorted index sorted |
| ArrayRuns.LazyAgreesWithEager | source/array.c:441-816 | After any run of updates and deletions, sorting on demand gives exactly the index that inserting, rotating and renumbering at every step have kept, which is not sorted again |
| ArrayRuns.LazyAgreesWithSorted | source/array.c:441-866 | The same with mass deletions, after which alone the eager array is sorted |
| SymbolSpec.MatchedPopRestores | source/alias.c:2789-2838 | A pop restores value and stack of the push it matches, whatever balanced pushes, pops and assignments came between |
| SymbolSpec.StackUnlink | source/alias.c:2820-2837 | Unlinking the first record of a kind pops that kind's stack and no other |
| Symbols.SymbolTable.Push | source/alias.c:2789-2809 | One kind of one name is pushed; every other kind and name is as it was |
| Symbols.SymbolTable.Pop | source/alias.c:2811-2838 | One kind of one name is popped, or -1 is returned if nothing was pushed; every other kind and name is as it was |
| Symbols.SymbolTable.AddVarAlias | source/alias.c:1056-1129 | Assigning text sets the value and keeps the stacks; assigning nothing deletes it; argument lists and builtins stay |
| Symbols.SymbolTable.AddCmdAlias | source/alias.c:1224-1264 | Aliasing sets command and argument list and keeps the stacks and all other names |
| Symbols.SymbolTable.Delete | source/alias.c:1557-1602 | Deleting one kind keeps its stack and all other kinds, and removes the symbol when nothing is left |
| Symbols.SymbolTable.AddBuiltinCmdAlias | source/alias.c:1293-1307 | Making a name a builtin command keeps every value, stack and argument list and all other builtins |
| Symbols.SymbolTable.DeleteBuiltinCommand | source/alias.c:1604-1621 | Taking it back keeps every value and stack, all other builtins and, as long as the symbol stays, its argument list |
| Symbols.SymbolTable.Collect | source/alias.c:1015-1041 | A symbol is removed if and only if it has neither a value nor a saved record |
| Symbols.SymbolTable.InTable | source/alias.c:1015-1041 | A name is in the table exactly when it has a value or a saved record |
| Symbols.RunLast | source/alias.c:2789-3148 | One operation more in a run is one step of its own kind and name, and of no other |
| Symbols.Run | source/alias.c:2789-3148 | Over any run, each kind of value of each name goes through its own operations as if the others were not on the same chain, and each argument list is what the last alias or deletion left, until the symbol is collected |
| Symbols.ArglistAfterPop | source/alias.c:2868-2920 | After a push, any run that is balanced for the command, and its pop, the command is as before; its argument list is so if and only if no alias or deletion came between or the last one left the same list |
| Symbols.ListAfterPop | source/alias.c:2868-2920 | What the list is after any such run: the one last set in between, or the old one, unless the pop leaves nothing of the symbol |

## Left out

- Numbers are 32-bit integers: fractions, exponents in what is printed, `strtod` and
  `sprintf` rounding and the comparison up to DBL_EPSILON are not modelled.
- Allocation failure, allocator hooks, reference and constant-string flags, raw
  items and the global error position are not modelled.
- Patches and merge patches work on trees as values: what they do to the links of
  child lists is the subject of `ChildList` and `SortList` only. The order in which the
  generators leave their arguments is not in their results; the round trips hold for
  a duplicate in any order of members, or say for which.
- JsonPatch.ApplyPatches: after a test has sorted child lists in place, their first prev
  links may be broken; an addition to such an object then does what
  `SortList.SortAndAdd` says, which may drop the item or cut members off. On values
  it appends. A move whose "from" is no string reads a NULL pointer in the source;
  the model returns 5. After the removal of the whole document, which leaves an item
  of no valid type, no further patch is applied.
- PatchOperations.TestDecides: the broken links are not in the result; where case is
  ignored, `FoldedNames.SortedDecidesFolded` says what the comparison decides for
  names spelled differently.
- PatchRoundTrip.JsonPatchRoundTrip: among names that differ in case only,
  `PatchOrder.OrderedRoundTrip` decides in the case-sensitive functions, for paths
  that end in surviving names, and `PatchFolded.FoldedRoundTrip` in the others, where
  two such names in one object are repetitions and left out. What happens where one
  of several such names does not survive is not stated. Arrays are no longer than
  size_t can index.
- PatchRoundTrip.PatchesSucceed: the same for the names themselves.
- MergeRoundTrip.MergePatchRoundTrip: where case is ignored, no two names that meet may
  differ in case only; `MergeFolded.FoldedMergeRoundTrip` is without that premise, for
  trees without repetitions, and says what the result means with names folded.
- PatchPlaces.RemoveAtName: no two names of the object may differ in case only;
  `CaseClashes.DetachPathIsExact` says what happens then.
- PatchPlaces.ReplaceAtName: the same.
- Compare.CompareByLookup: an item compared with itself is equal in the source without
  looking; the model has no identity of items, and differs for repeated names only.
- Parser.ParseBuffer.Value: a number is read up to the dot or the exponent, where
  `strtod` reads on; so the grammar has integers only, of at most 63 bytes.
- Parser.Parse: the same.
- `ChildList` and `SortList` look at one list at a time: the children of a child are
  part of its value. `TreeCopy` looks at all lists of a tree.
- ChildList.AddItemToArray: an item that is already in a list is not given to it.
- AlistSpec.PrefilterAgrees: plain chars are signed. Where they are not, the hash of
  every name is its first four bytes. The tables with names for which it is not
  are left out, as are the case-insensitive hash and its tables
  (`include/alist.h:38-68`); names folded to one case are in.
- AlistSpec.Masked: `hash & mask` is written as cutting off the lower bytes, for the
  five masks the hash functions return.
- Alists.Alist.GetAlistItem: the location must be below the count; at the count
  itself the source reads a slot that was never filled.
- Alists.Alist.MoveAlistItems: the loop that is to clear slots when moving down
  never runs and is not written out.
- The entry that an insertion displaces is leaked by the source; the model does not
  count memory.
- The directory of arrays (`array_info`, creating and deleting whole arrays by name)
  is not modelled: a class stands for one array, and DelItem and DelItems say when
  it is gone. Reading arguments, wildcard matching and `find_items` are left out.
- IndexedArrays.IndexedArray.SortIndices: `qsort` is some verified sort.
- Symbols: the table is the map that `Alist` is proved to be. Loading stubs, local
  variables, brackets and upper-casing in names, printing, the builtin variable stack and the
  `#if 0` stack of builtin commands are left out.
- Symbols.SymbolTable.AddCmdAlias: the name must not be a stub waiting to be loaded; the
  source loads the file first, which in a run is further operations.
- The value of a builtin is the name of the function that it points to.
