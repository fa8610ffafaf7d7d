# Order synchronisation: a verified model

The order server takes changes of orders from its clients over TCP, as packets with a check byte, and puts them on the queues of
Redis shards; consumers take them off and execute their SQL statements. The project models the parts that carry this, and the
libraries below them:

* **XML editor** (`Substring`, `Markup*`): `CMarkupSTL` keeps the document as text and beside it an array of offsets and links,
  which every edit repairs by a splice and one traversal. The model is the class `Markup.Editor` over that array. `MarkupTree` has
  the trees and their text, `MarkupParse` the parser as a function with the facts of every accepted document, `MarkupRender` proves
  that a tree's text parses to its offsets, `MarkupIndex` says what an array must hold for a tree, `MarkupAdjust` and
  `MarkupEffect` deal with `x_Adjust`, `MarkupEdit`, `MarkupAdd`, `MarkupPlace` and `MarkupOps` with the edits, `MarkupData` and
  `MarkupAccess` with what reads back, `MarkupEntities` and `MarkupReads` with what any text says,
  `MarkupFind` with finding by name and path, `MarkupStore` with what a parse stores,
  `MarkupHang` with the documents on which it never returns, `MarkupNames` and `MarkupSpecial` with
  the documents it accepts and refuses and the nodes it steps over.
* **Base64** of the same file (`Base64`).
* **JSON** (`Json*`): values and their order (`JsonValue`, `JsonOrder`), integers (`JsonNumber`), strings (`JsonString`), the
  grammar with its recovery from errors as functions (`JsonParse`), the reader over its cursor and node stack (`JsonReader`),
  the two writers (`JsonFast`, `JsonStyled`, `JsonStyledWriter`) and reading back what they wrote (`JsonRoundTrip`, `JsonStyledBack`);
  the layout of lines (`JsonLayout`); the texts that are accepted, as a grammar (`JsonGaps`, `JsonText`, `JsonAccept`).
* **Wire protocol**: bytes, tables and fields (`WireCodec`), the client's packet buffer (`Packet`), the byte buffer on its memory
  pool (`RawCache`), cutting the stream into packets (`Framing`) and the connection (`ClientUnit`).
* **Timers**: the intrusive circular lists (`TimerLinks`) and their order as values (`TimerLists`), what checks do to
  them while callbacks attach timers again (`TimerChecks`), and the scheduler (`Timers`).
* **Routing** (`Pipeline`): the steps of server, shards and consumers in any interleaving. It uses the model of the JSON reader.

Classes stand where the program changes objects in place; each method is proved against functions on which the main lemmas are
stated. `old` states, ghost fields (`tree`, `rings`, `log`, `sent`) and `Valid()` carry the abstract value. Where a method has
grown beyond what is pleasant to prove it is split along the phases of the original.

Where a promise fails, the model says exactly when:

* The parser does not end exactly when it comes to white space between a less-than sign and a question or exclamation mark. The
  place must be reached as markup: the same characters inside a comment, a section or the like do no harm (`ParserHangsExactly`,
  `HangsSomewhere`; for well-formed surroundings `HangsExactlyInMarkup`).
* The size bound of `EncodeBase64` is tight exactly when the length is 1 modulo 3 and the group count is no multiple of 16
  (`EncodedSize`).
* A lone low surrogate escape is decoded to ill-formed UTF-8, and the unit behind a high surrogate is not checked
  (`EscapesWellFormedExactly`).
* Some integer tokens beyond 64 bits pass the threshold test and wrap (`NumberExact`, `ThresholdMiss`).
* `InsertElem` of a document element into a document without one puts it at offset 1, which is right exactly when the text does not
  begin with a less-than sign (`RootInsertFits`, `Markup.Editor.AddElem`).
* The JSON reader accepts more than JSON: behind a comment any one token for the comma between members, a separator behind a last
  member with an empty name, a minus sign alone, digits behind a leading zero, words like numbers that the reader of doubles takes,
  control characters in strings, surrogates without their partner, and anything behind the value. These are all
  (`AcceptedExactly`).
* The check of a timer list fires without end exactly when its timeout is not positive, all its timers are due and one of them
  attaches itself to it again, for it then keeps its expiry (`TimedReturnsExactly`, `FiresForEver`); that of the pending list when
  one of its timers does so (`PendingReturnsExactly`).
* Removing an element, and inserting one, skips more than blanks up to the next tag exactly when a quotation mark stands right in
  front of that tag (`OnlyBlanksSkipped`, `QuoteCut`).
* The table name in a statement gives way to the new one exactly when it has 19 characters, or fewer at the end of the statement;
  the remark beside the code speaks of 20 (`TableExchanged`, `LongNameLeft`).
* Order numbers find their shard exactly with shards numbered from 1, and statements stay in order exactly with one consumer a
  shard (`EveryOrderFindsShard`, `OneConsumerExactly`).

`dafny verify dfyconfig.toml` checks the whole project.

## Model

| member | source | states |
|---|---|---|
| MarkupStore.IndexAgreesWithFreshParse | OrderSyncServer/src/core/MarkupSTL.cpp:641-763 | whenever the position array indexes the document, which every edit keeps, a fresh parse of the current text gives the same offsets, parents, first children and next siblings, up to renumbering; if that parse finds nothing, the array holds nothing either |
| MarkupStore.ParsedIsIndexed | OrderSyncServer/src/core/MarkupSTL.cpp:69-91 | what SetDoc stores for the text of a well-formed tree with at most one root is an index of that text, with the elements numbered in document order from 1; the document counts as well-formed exactly when it has a root |
| MarkupStore.DocumentParses | OrderSyncServer/src/core/MarkupSTL.cpp:641-763 | parsing the text of a well-formed tree behind any prolog yields exactly the offsets of that tree |
| MarkupRender.RenderedElemParses | OrderSyncServer/src/core/MarkupSTL.cpp:641-763 | the text of one element, wherever it stands in a document, parses to that element with the offsets it has there |
| MarkupRender.RenderedKidsParse | OrderSyncServer/src/core/MarkupSTL.cpp:708-732 | the text of any contents (elements, text, comments, sections, instructions) parses to the siblings it holds, up to the end tag behind it |
| MarkupRender.ChunkSkipped | OrderSyncServer/src/core/MarkupSTL.cpp:949-1049 | the parser steps over text, comments, sections, instructions and declarations as one unit |
| MarkupParse.ParsedElemIsNested | OrderSyncServer/src/core/MarkupSTL.cpp:641-763 | in every accepted document, well-formed or not, the offsets land on angle brackets, children lie strictly between the tags of their parent, and siblings follow one another without overlap |
| MarkupParse.ParsedKidsAreNested | OrderSyncServer/src/core/MarkupSTL.cpp:708-732 | the same for the contents of an element |
| MarkupNames.ElemIsNamed | OrderSyncServer/src/core/MarkupSTL.cpp:718-756 | in every accepted document the end tag of each element has behind its slash a quotation, or a word that is the name of the start tag or the part of it in front of a bracket |
| MarkupNames.SpelledSame | OrderSyncServer/src/include/MarkupSTL.h:162-172 | for a name without brackets that word is the name |
| MarkupNames.MismatchRefused | OrderSyncServer/src/core/MarkupSTL.cpp:739-747 | behind any prolog and inside any open tags behind any well-formed siblings, an end tag whose word is not the name of the innermost open tag makes the parser refuse the document, whatever follows |
| MarkupSpecial.CommentNode | OrderSyncServer/src/core/MarkupSTL.cpp:949-1049 | a comment is stepped over up to its first end mark |
| MarkupSpecial.SectionNode | OrderSyncServer/src/core/MarkupSTL.cpp:949-1049 | so is a character data section |
| MarkupSpecial.InstructionNode | OrderSyncServer/src/core/MarkupSTL.cpp:949-1049 | and a processing instruction |
| MarkupSpecial.DeclarationNode | OrderSyncServer/src/core/MarkupSTL.cpp:949-1049 | a declaration goes on to the greater-than sign outside brackets and quotations |
| MarkupHang.LoopsExactlyAtSpacedDeclaration | OrderSyncServer/src/core/MarkupSTL.cpp:659-697 | one iteration of the loop at the head of x_ParseElem repeats itself exactly where white space stands between a less-than sign and a question or exclamation mark |
| MarkupHang.ParserHangsExactly | OrderSyncServer/src/core/MarkupSTL.cpp:641-763 | on every document: the parse repeats itself for ever at a less-than sign exactly when it reaches that sign as markup and white space separates it from a question or exclamation mark |
| MarkupHang.HangsSomewhere | OrderSyncServer/src/core/MarkupSTL.cpp:641-763 | so it never returns exactly when it reaches such a place |
| MarkupHang.HangsExactlyInMarkup | OrderSyncServer/src/core/MarkupSTL.cpp:641-763 | every less-than sign behind a well-formed prolog, and behind any well-formed siblings inside any chain of open tags, is reached: there the parse hangs exactly when white space separates it from a question or exclamation mark |
| MarkupHang.SpacedDeclarationHangs | OrderSyncServer/src/core/MarkupSTL.cpp:659-697 | it never returns on any document that begins with such a place |
| MarkupText.ScanChar | OrderSyncServer/src/core/MarkupSTL.cpp:765-781 | finds the first occurrence at or behind the start, or the end of the document |
| MarkupText.ScanToken | OrderSyncServer/src/core/MarkupSTL.cpp:783-840 | the token function on which parser and editor are specified: quoted strings, words, single special characters, and the end of the document |
| MarkupText.ScanNode | OrderSyncServer/src/core/MarkupSTL.cpp:949-1049 | the kind and end of the node at a less-than sign, document type declarations with nested brackets included |
| Markup.Editor.SetDoc | OrderSyncServer/src/core/MarkupSTL.cpp:49-91 | stores the parse of the text; true only for texts whose tags nest and whose end tags spell the names of their start tags; for the text of a well-formed tree with at most one root the editor is valid and holds that tree numbered from 1 |
| Markup.Editor.ParseDocument | OrderSyncServer/src/core/MarkupSTL.cpp:69-87 | the records below index 0 are the parse of the whole text, and none are used when it fails |
| Markup.Editor.ParseElement | OrderSyncServer/src/core/MarkupSTL.cpp:641-763 | parses one element into records numbered in document order without a gap, gives released records back, leaves all older records but the parent's end alone, and reports no element or failure exactly as the parse does |
| Markup.Editor.ParseOpened | OrderSyncServer/src/core/MarkupSTL.cpp:689-762 | the same from behind the name of a start tag on |
| Markup.Editor.ParseContents | OrderSyncServer/src/core/MarkupSTL.cpp:708-728 | the siblings of the contents are linked in order and numbered without a gap, whatever look-ahead failed |
| Markup.Editor.ParseEndTag | OrderSyncServer/src/core/MarkupSTL.cpp:708-762 | an element is complete only with a matching end tag, by name as ElemIsNamed and MismatchRefused have it; its record then holds all four offsets |
| Markup.Editor.GetFreePos | OrderSyncServer/src/core/MarkupSTL.cpp:606-615 | a fresh record; older ones are kept when the array grows |
| MarkupAdjust.WalkShifts | OrderSyncServer/src/core/MarkupSTL.cpp:1436-1486 | shifting every element of a sibling list once moves the whole list in the index by that distance |
| MarkupAdjust.RestShifts | OrderSyncServer/src/core/MarkupSTL.cpp:1436-1486 | shifting all later elements, and of the ancestors only the ends, gives the index of the document around a part that has grown |
| MarkupEffect.AdjustEffect | OrderSyncServer/src/core/MarkupSTL.cpp:1436-1486 | x_Adjust, by offsets: later elements move as a whole, descendants too unless bAfterPos, ancestors move their ends only, the element and everything before it stay |
| MarkupEffect.AdjustBySets | OrderSyncServer/src/core/MarkupSTL.cpp:1436-1486 | the same by membership: each record is shifted exactly as its place in the tree asks, and once |
| MarkupEffect.AdjustRoot | OrderSyncServer/src/core/MarkupSTL.cpp:1436-1486 | the pseudo record 0 moves its end only |
| Markup.Editor.NextPos | OrderSyncServer/src/core/MarkupSTL.cpp:1449-1479 | one step of the traversal with its moving top marker visits the next element of the planned order; it ends after the last |
| Markup.Editor.Adjust | OrderSyncServer/src/core/MarkupSTL.cpp:1436-1486 | the traversal ends and visits exactly the planned elements, in order |
| MarkupEdit.NodeEdited | OrderSyncServer/src/core/MarkupSTL.cpp:1123-1163 | replacing an element by one with other attributes or contents, splicing the text and adjusting, gives an index of the new document |
| MarkupEdit.Removed | OrderSyncServer/src/core/MarkupSTL.cpp:1814-1847 | cutting an element with so many characters of the plain text behind it, relinking and adjusting gives an index of the shorter document |
| MarkupEdit.OnlyBlanksSkipped | OrderSyncServer/src/core/MarkupSTL.cpp:1836-1842 | the offset behind an element from which removing and inserting go on: only blanks are skipped to the next tag, exactly unless a quotation mark stands right before that tag, which is skipped too; in front of other plain text nothing is skipped |
| MarkupOps.QuoteCut | OrderSyncServer/src/core/MarkupSTL.cpp:1814-1847 | so removing the first of two elements with a quotation mark between them cuts the mark |
| MarkupEdit.Inserted | OrderSyncServer/src/core/MarkupSTL.cpp:1622-1702 | splicing in a new element, linking its record and adjusting gives an index of the longer document |
| MarkupEdit.SplitInserted | OrderSyncServer/src/core/MarkupSTL.cpp:1618-1702 | turning an empty parent into a pair of tags around the new element, with the pre-adjusted offsets of the parent, gives an index of the new document |
| Markup.Editor.SetAttrib | OrderSyncServer/src/core/MarkupSTL.cpp:1123-1163 | the attribute reads back as the string set, the text put in is its characters in pieces, a new attribute standing last in the tag; all other attributes, data, elements and links are as before, nothing outside the start tag changes, and the index stays right |
| Markup.Editor.GetAttrib | OrderSyncServer/src/core/MarkupSTL.cpp:1102-1113 | what the pieces of the attribute say, its entities replaced, whoever wrote them; nothing if there is no such attribute |
| Markup.Editor.SetData | OrderSyncServer/src/core/MarkupSTL.cpp:1238-1299 | refused exactly for elements with children; otherwise the data reads back as the string set, in plain text and in a section, only the contents of the element change in the text, all other elements are as before, and the index stays right |
| Markup.Editor.GetData | OrderSyncServer/src/core/MarkupSTL.cpp:1301-1339 | what stands between the tags: text without markup piece by piece, with its entities replaced, a section in front as it stands, whoever wrote them; nothing for an element with children or without a current element |
| Markup.Editor.RemoveElem | OrderSyncServer/src/core/MarkupSTL.cpp:431-441 | the element with its subtree is gone, the text is cut from its start to the next tag if only blanks, or blanks and a quotation mark right before the tag, stand between, and else to its end, all others read as before, the element in front becomes current, and the index stays right |
| Markup.Editor.RemoveChildElem | OrderSyncServer/src/core/MarkupSTL.cpp:443-453 | the same for the current child |
| Markup.Editor.DetachElem | OrderSyncServer/src/core/MarkupSTL.cpp:1814-1847 | unlinking, cutting and shifting together leave an index of the shorter document |
| Markup.Editor.AddElem | OrderSyncServer/src/core/MarkupSTL.cpp:1575-1709 | AddElem, InsertElem, AddChildElem and InsertChildElem: one new element with the given name and data next to the current one or child, linked there, at that exact place of the text, an empty parent being split; all others read as before, and the index stays right. A document element inserted in front of a less-than sign that begins the text ends up behind that sign, and the text is then that of no well-formed tree |
| Markup.Editor.PlaceElem | OrderSyncServer/src/core/MarkupSTL.cpp:1616-1702 | both ways of adding, with and without splitting the parent |
| Markup.Editor.PutElem | OrderSyncServer/src/core/MarkupSTL.cpp:1622-1702 | adding where the parent has contents or an end tag, and the record and text of a misplaced document element |
| Markup.Editor.SplitParent | OrderSyncServer/src/core/MarkupSTL.cpp:1618-1702 | adding below an empty element |
| Markup.Editor.LocateNew | OrderSyncServer/src/core/MarkupSTL.cpp:1488-1573 | the offset, the record to link behind and the place in the tree belong together, but for a misplaced document element |
| Markup.Editor.FindElem | OrderSyncServer/src/core/MarkupSTL.cpp:149-164 | the element that the name or path names, from the current position or from the root, becomes current; the position stays if there is none |
| Markup.Editor.FindPath | OrderSyncServer/src/core/MarkupSTL.cpp:851-947 | the search over text and links finds what the search in the tree finds |
| MarkupFind.FoundByName | OrderSyncServer/src/core/MarkupSTL.cpp:851-947 | a name finds the first following sibling of exactly that name |
| MarkupFind.FoundByPath | OrderSyncServer/src/core/MarkupSTL.cpp:851-947 | a path continues inside the first sibling of its first name, and nowhere else |
| MarkupFind.FoundByWildcard | OrderSyncServer/src/core/MarkupSTL.cpp:851-947 | the wildcard finds the first sibling, or continues inside it |
| Markup.Editor.IntoElem | OrderSyncServer/src/core/MarkupSTL.cpp:325-341 | the current element becomes the parent position |
| Markup.Editor.OutOfElem | OrderSyncServer/src/core/MarkupSTL.cpp:343-352 | the parent becomes the current element |
| MarkupAdd.AddedViews | OrderSyncServer/src/core/MarkupSTL.cpp:1575-1709 | after an insertion every other element has the name, attributes and data it had, but for the text of the parent |
| MarkupAdd.SplitViews | OrderSyncServer/src/core/MarkupSTL.cpp:1618-1702 | after splitting an empty parent every other element is as before |
| MarkupAdd.RootInsertFits | OrderSyncServer/src/core/MarkupSTL.cpp:1517-1532 | InsertElem of a document element into a document without one puts it at offset 1: the text stays that of a document with one root exactly when it did not begin with a less-than sign |
| MarkupAccess.AttrReadBack | OrderSyncServer/src/core/MarkupSTL.cpp:1123-1163 | in the tree, the value set is the value read, and no other attribute changes |
| MarkupAccess.AttribFound | OrderSyncServer/src/core/MarkupSTL.cpp:1063-1100 | searching the start tag finds the value of the attribute, or finds nothing exactly when there is none |
| MarkupData.FindInAttrs | OrderSyncServer/src/core/MarkupSTL.cpp:1063-1100 | the token search counts names and values in step, so that a value is never taken for a name |
| MarkupAccess.DataReadBack | OrderSyncServer/src/core/MarkupSTL.cpp:1238-1339 | in the tree, the data set is the data read, as text or as a section |
| MarkupAccess.DataLocal | OrderSyncServer/src/core/MarkupSTL.cpp:1301-1339 | what is read of an element depends on its contents alone |
| MarkupAccess.ReplacedView | OrderSyncServer/src/core/MarkupSTL.cpp:1123-1299 | replacing one element leaves every other one as it reads |
| MarkupAccess.ElsewhereUnchanged | OrderSyncServer/src/core/MarkupSTL.cpp:1575-1847 | exchanging a sibling list leaves all elements outside it as they read, but for the text of the parent |
| MarkupData.UnescapeInverts | OrderSyncServer/src/core/MarkupSTL.cpp:1341-1412 | x_TextFromDoc gives back every string that x_TextToDoc escaped, for data and for attributes |
| MarkupData.TextToDoc | OrderSyncServer/src/core/MarkupSTL.cpp:1341-1375 | angle brackets and ampersands become their entities, in attributes the quotation marks too, and nothing else is changed |
| MarkupData.TextFromDoc | OrderSyncServer/src/core/MarkupSTL.cpp:1377-1412 | the loop over entities reads whatever the text is made of, characters and the five entities of XML, as what it says |
| MarkupData.PiecesRead | OrderSyncServer/src/core/MarkupSTL.cpp:1377-1412 | text in pieces, each a character that begins no entity or one of the five entities of XML, is read as what the pieces say |
| MarkupEntities.AnyText | OrderSyncServer/src/core/MarkupSTL.cpp:1377-1412 | every text is such a list of pieces |
| MarkupData.EscapeIsWritten | OrderSyncServer/src/core/MarkupSTL.cpp:1341-1375 | text is written in such pieces: angle brackets and ampersands as entities, in attributes the quotation marks too, all else as it is |
| MarkupReads.DataReads | OrderSyncServer/src/core/MarkupSTL.cpp:1318-1338 | the data between the tags, for text in pieces and for a section behind blanks |
| MarkupReads.AttrReads | OrderSyncServer/src/core/MarkupSTL.cpp:1102-1113 | the value of the first attribute of a name, in pieces |
| MarkupReads.DataPut | OrderSyncServer/src/core/MarkupSTL.cpp:1257-1266 | what SetData puts between the tags: a section where it is asked for and the text holds no end mark, and else the pieces |
| Base64.EncodeBase64 | OrderSyncServer/src/core/MarkupSTL.cpp:471-528 | the lines of four-character groups with their breaks, written inside the computed size |
| Base64.EncodedSize | OrderSyncServer/src/core/MarkupSTL.cpp:471-528 | the result never exceeds the precomputed size, and reaches it exactly when the length is 1 modulo 3 and the number of groups is no multiple of 16 |
| Base64.DecodeBase64 | OrderSyncServer/src/core/MarkupSTL.cpp:530-599 | the bytes decoded so far are in place, nothing behind them is touched; 0 when the buffer is too small, a size estimate without a buffer |
| Base64.DecodeInvertsEncode | OrderSyncServer/src/core/MarkupSTL.cpp:471-599 | decoding what was encoded gives back the bytes, across padding and line breaks, in any buffer that holds them and in no smaller one; section 4 of RFC 4648 |
| Base64.ByTheTable | OrderSyncServer/src/core/MarkupSTL.cpp:471-599 | by Table 1 of RFC 4648: four characters for every three bytes make their 24 bits, with padding behind the rest; and any such text, broken anywhere, is decoded to the bytes |
| Base64.BreaksPlaced | OrderSyncServer/src/core/MarkupSTL.cpp:471-528 | every line but the last has 64 characters: breaks begin at the multiples of 66, and behind padding |
| JsonValue.OrderLaws | OrderSyncServer/src/include/Json/json_value.cpp:526-641 | operator< is irreflexive, transitive and total, and compare is 0 exactly for equal values and antisymmetric |
| JsonOrder.StringsInOrder | OrderSyncServer/src/include/Json/json_value.cpp:556-560 | of two strings the one that begins the other, or has the smaller character where they first differ, is less |
| JsonOrder.KeysInOrder | OrderSyncServer/src/include/Json/json_value.cpp:185-191 | names likewise, and indices by their size |
| JsonOrder.TypesInOrder | OrderSyncServer/src/include/Json/json_value.cpp:537-586 | numbers of one type go by size, and types in the order of their enumeration |
| JsonValue.EqIsEquality | OrderSyncServer/src/include/Json/json_value.cpp:599-641 | operator== holds exactly for values with the same type, content and members, at any depth |
| JsonValue.ContainersLexicographic | OrderSyncServer/src/include/Json/json_value.cpp:561-568 | arrays and objects are ordered by size, and containers of one size by the first entry that differs, its key before its value |
| JsonValue.FirstDifferenceDecides | OrderSyncServer/src/include/Json/json_value.cpp:555-568 | of containers of equal size the first differing entry decides, its key before its value |
| JsonValue.PutLookup | OrderSyncServer/src/include/Json/json_value.cpp:1132-1153 | assigning through operator[] changes that entry only, and adds one exactly when there was none |
| JsonValue.PutSorted | OrderSyncServer/src/include/Json/json_value.cpp:1132-1153 | and keeps the map sorted |
| JsonNumber.UintToString | OrderSyncServer/src/include/Json/json_tool.h:78-89 | writes the decimal digits backwards, at most 20 of them and a NUL, and nothing outside |
| JsonNumber.ValueToString | OrderSyncServer/src/include/Json/json_writer.cpp:35-57 | the decimal notation of the signed or unsigned number, inside the 25-byte buffer |
| JsonNumber.ScanInteger | OrderSyncServer/src/include/Json/json_reader.cpp:574-595 | the loop of decodeNumber computes the scan function, its arithmetic modulo 2 to the 64 |
| JsonNumber.ScanExact | OrderSyncServer/src/include/Json/json_reader.cpp:574-595 | digits denoting at most the limit are accepted with their value; larger ones are passed on as doubles unless the threshold test misses them, and those wrap around |
| JsonNumber.NumberExact | OrderSyncServer/src/include/Json/json_reader.cpp:553-603 | every integer token with or without sign is read exactly when it lies in the range, and mistaken exactly when the threshold test misses it |
| JsonNumber.IntegersRead | OrderSyncServer/src/include/Json/json_reader.cpp:554-604 | every integer from -2^63 up to 2^64 is read as it is, signed below 2^31 and unsigned from there on |
| JsonNumber.DigitByPlace | OrderSyncServer/src/include/Json/json_tool.h:78-90 | digits are written and read by their place |
| JsonNumber.IntegerRoundTrip | OrderSyncServer/src/include/Json/json_writer.cpp:35-57 | every integer printed is read back, tagged by its size |
| JsonNumber.ThresholdMiss | OrderSyncServer/src/include/Json/json_reader.cpp:584-594 | a token beyond the range that is read as 9 |
| JsonString.ValueToQuotedString | OrderSyncServer/src/include/Json/json_writer.cpp:120-190 | the quoted text, by the shortcut or character by character |
| JsonString.UnquoteInverts | OrderSyncServer/src/include/Json/json_reader.cpp:644-688 | decoding the inside of a quoted string gives back the string, for all NUL-free byte strings |
| JsonString.QuotedScanned | OrderSyncServer/src/include/Json/json_reader.cpp:435-448 | the tokeniser ends a quoted string at its own closing mark and no earlier |
| JsonString.Utf8Correct | OrderSyncServer/src/include/Json/json_tool.h:18-53 | the bytes are the well-formed shortest UTF-8 sequence of the code point; section 3 of RFC 3629 |
| JsonString.DecodeString | OrderSyncServer/src/include/Json/json_reader.cpp:644-688 | the loop ends, never passes the end of the token, and decodes all escapes |
| JsonString.ReadCodePoint | OrderSyncServer/src/include/Json/json_reader.cpp:690-717 | a code unit or a surrogate pair |
| JsonString.ReadUnicodeEscape | OrderSyncServer/src/include/Json/json_reader.cpp:720-743 | four hexadecimal digits, in either case |
| JsonString.HexByPlace | OrderSyncServer/src/include/Json/json_reader.cpp:728-741 | hexadecimal digits of either case have the value of their place |
| JsonString.HexOnly | OrderSyncServer/src/include/Json/json_reader.cpp:728-741 | and no other character is one |
| JsonString.QuotedWritten | OrderSyncServer/src/include/Json/json_writer.cpp:120-191 | every character is written as its letter behind a backslash, as an escape of two upper-case digits, or as itself |
| JsonString.AllEscapesRead | OrderSyncServer/src/include/Json/json_reader.cpp:644-743 | any string of escapes, each of four hexadecimal digits in either case, with surrogates paired as section 7 of RFC 8259 says, decodes to the UTF-8 of exactly the code points it stands for |
| JsonString.SpelledCodePoints | OrderSyncServer/src/include/Json/json_reader.cpp:644-743 | every sequence of scalar values is what some such string stands for |
| JsonString.EscapesWellFormedExactly | OrderSyncServer/src/include/Json/json_reader.cpp:690-717 | escapes in any order decode to well-formed UTF-8 exactly when no low surrogate begins a code point and no high one comes last |
| JsonParse.ReadToken | OrderSyncServer/src/include/Json/json_reader.cpp:245-316 | tokens lie in order inside the document and only the end of the stream is empty |
| JsonParse.Recover | OrderSyncServer/src/include/Json/json_reader.cpp:760-774 | skipping to a closing token ends |
| JsonParse.ParseValue | OrderSyncServer/src/include/Json/json_reader.cpp:166-214 | a value succeeds exactly when no error was noted, and then the cursor has moved on |
| JsonParse.ParseDocument | OrderSyncServer/src/include/Json/json_reader.cpp:122-163 | acceptance exactly when no error was noted |
| JsonReader.Reader.Parse | OrderSyncServer/src/include/Json/json_reader.cpp:122-163 | on every input the parse ends, the cursor stays inside the document, one node is left on the stack, and the result is true exactly when the error list is empty, and exactly for the texts of the grammar, with the value that the text spells |
| JsonReader.Reader.ReadValue | OrderSyncServer/src/include/Json/json_reader.cpp:166-214 | the node stack is balanced, the value on top is the one parsed |
| JsonReader.Reader.ReadObject | OrderSyncServer/src/include/Json/json_reader.cpp:451-507 | members in the order read, the later of two equal names, recovery behind the closing brace; accepted exactly as MembersSpelled has it |
| JsonReader.Reader.ReadArray | OrderSyncServer/src/include/Json/json_reader.cpp:510-550 | elements by index, recovery behind the closing bracket |
| JsonReader.Reader.RecoverFromError | OrderSyncServer/src/include/Json/json_reader.cpp:760-774 | the errors of skipped tokens are dropped |
| JsonReader.Reader.NextToken | OrderSyncServer/src/include/Json/json_reader.cpp:245-316 | the token function, with the cursor moved behind the token |
| JsonFast.FastWriter.Write | OrderSyncServer/src/include/Json/json_writer.cpp:206-213 | the compact text of the value and a newline, the members of an object in ascending order of their names as ObjectWritten has it |
| JsonOrder.ObjectWritten | OrderSyncServer/src/include/Json/json_writer.cpp:217-275 | an object built by any assignments in any order is written with every name once, in ascending order of their characters, each with the value assigned last |
| JsonFast.FastWriter.WriteMembers | OrderSyncServer/src/include/Json/json_writer.cpp:250-269 | all members in key order, each looked up by its name |
| JsonFast.SuffixLookup | OrderSyncServer/src/include/Json/json_writer.cpp:250-269 | the member found by its name is the one the iteration has reached |
| JsonRoundTrip.WrittenReadsBack | OrderSyncServer/src/include/Json/json_reader.cpp:166-214 | reading what FastWriter wrote notes no error and gives the same value up to integer tags and gaps of arrays; strictRoot adds one error exactly for a scalar root |
| JsonRoundTrip.ValueReadBack | OrderSyncServer/src/include/Json/json_reader.cpp:166-214 | the same for a value anywhere in a document |
| JsonRoundTrip.WriteReadWrite | OrderSyncServer/src/include/Json/json_writer.cpp:206-272 | writing, reading and writing again gives the same text |
| JsonRoundTrip.SameTextSameValue | OrderSyncServer/src/include/Json/json_writer.cpp:206-272 | two values print alike exactly when they differ in tags and gaps only |
| JsonRoundTrip.AlikePrinted | OrderSyncServer/src/include/Json/json_writer.cpp:216-272 | values that differ in tags and gaps only print alike |
| JsonStyledWriter.StyledWriter.Write | OrderSyncServer/src/include/Json/json_writer.cpp:285-296 | the styled text of the value and a newline, the indentation restored |
| JsonStyledWriter.StyledWriter.WriteValue | OrderSyncServer/src/include/Json/json_writer.cpp:299-357 | appends the text to the document, or puts it aside when the elements of a line are collected |
| JsonStyledWriter.StyledWriter.WriteArrayValue | OrderSyncServer/src/include/Json/json_writer.cpp:360-410 | one line or one element a line |
| JsonStyledWriter.StyledWriter.IsMultilineArray | OrderSyncServer/src/include/Json/json_writer.cpp:413-441 | an array is spread exactly when it has a nested element, three times its size reaches the margin, or its line would reach it; the texts put aside are those of its elements |
| JsonStyledWriter.StyledWriter.SetAside | OrderSyncServer/src/include/Json/json_writer.cpp:425-437 | the computed line length is the length of the line |
| JsonStyledWriter.StyledWriter.WriteIndent | OrderSyncServer/src/include/Json/json_writer.cpp:454-466 | what is appended depends on the last character only |
| JsonStyled.StyledErases | OrderSyncServer/src/include/Json/json_writer.cpp:299-490 | erasing white space outside string literals from the styled text of any comment-free value gives the compact text |
| JsonLayout.StyledIndented | OrderSyncServer/src/include/Json/json_writer.cpp:455-489 | every line begins with three blanks for each bracket open before it, not counting one that the line closes at once |
| JsonLayout.OnOneLineExactly | OrderSyncServer/src/include/Json/json_writer.cpp:365-444 | an array that is not empty stands on one line exactly if none of its elements is a container that is not empty and the line has fewer than 74 characters |
| JsonLayout.OneLineShort | OrderSyncServer/src/include/Json/json_writer.cpp:414-444 | no array of 74 characters stands on one line |
| JsonLayout.StyledBlanks | OrderSyncServer/src/include/Json/json_writer.cpp:320-412 | a colon stands between blanks, and behind commas and inside brackets that are not empty comes a blank or a line break |
| JsonAccept.AcceptedExactly | OrderSyncServer/src/include/Json/json_reader.cpp:122-163 | a document is accepted with a value exactly when it begins with a gap and a text of the grammar whose meaning is that value, and the root rule allows it; the grammar is JSON with comments in gaps, and each further leniency is a constructor |
| JsonAccept.ValueSpelled | OrderSyncServer/src/include/Json/json_reader.cpp:166-215 | whatever is accepted as a value, from any place, is such a text |
| JsonAccept.MembersSpelled | OrderSyncServer/src/include/Json/json_reader.cpp:452-508 | so is what is accepted between braces |
| JsonAccept.ItemsSpelled | OrderSyncServer/src/include/Json/json_reader.cpp:511-551 | and between brackets |
| JsonAccept.StringSpelled | OrderSyncServer/src/include/Json/json_reader.cpp:645-688 | and every string token that decodes |
| JsonText.AnyTextReads | OrderSyncServer/src/include/Json/json_reader.cpp:122-163 | any text of the grammar, with any gaps between the tokens and any mix of raw bytes, two-character escapes and paired unicode escapes in its strings and names, is read as its value without an error, but for a root that strictRoot does not allow |
| JsonText.JsonRead | OrderSyncServer/src/include/Json/json_reader.cpp:166-215 | the same for a text at any place in a document |
| JsonText.StringRead | OrderSyncServer/src/include/Json/json_reader.cpp:435-449 | any spelling of a string is one token and is decoded to what it says |
| JsonText.FractionsForDoubles | OrderSyncServer/src/include/Json/json_reader.cpp:554-570 | numbers with a fraction or an exponent are left to the reader of doubles |
| JsonText.LastNamedStays | OrderSyncServer/src/include/Json/json_reader.cpp:452-508 | of members with the same name the last one stays |
| JsonGaps.GapRead | OrderSyncServer/src/include/Json/json_reader.cpp:218-233 | white space and comments in front of a token are stepped over |
| JsonGaps.GapSpelled | OrderSyncServer/src/include/Json/json_reader.cpp:218-233 | and nothing else is |
| JsonStyledBack.StyledReadsBack | OrderSyncServer/src/include/Json/json_writer.cpp:285-490 | the styled text is read back as the same value as the compact one |
| JsonStyledBack.StyledReadBack | OrderSyncServer/src/include/Json/json_reader.cpp:166-214 | the same for a value anywhere in a document |
| WireCodec.TablesInverse | OrderSyncClient/src/packet.cc:6-43 | the two substitution tables are inverse to each other on all bytes |
| WireCodec.DecodeUndoesEncode | OrderSyncClient/src/packet.cc:71-111 | decoding undoes encoding, and the other way round, and the check byte is accepted |
| WireCodec.SingleChangeRejected | OrderSyncClient/src/packet.cc:92-111 | changing one encoded byte makes decode reject |
| WireCodec.FieldReadBack | OrderSyncClient/src/packet.cc:113-220 | an integer field of 1, 2, 4 or 8 bytes, signed or not, reads back |
| WireCodec.FieldByteAt | OrderSyncClient/src/packet.cc:113-221 | a field is written in network order: each byte is the digit of its weight to the base 256 |
| WireCodec.FieldsReadBack | OrderSyncClient/src/packet.cc:113-352 | so does any list of them |
| Packet.OpenUndoesSeal | OrderSyncClient/src/packet.cc:71-111 | opening a sealed packet gives back the payload |
| Packet.SealedLayout | OrderSyncClient/inc/packet.h:68-88 | the bytes of a packet: length, mark, versions, command, the byte that makes the sum of the payload 0 modulo 256, and the payload through the table |
| Packet.OpenDetectsChange | OrderSyncClient/src/packet.cc:92-111 | no single changed byte of check byte or payload is accepted |
| Packet.FieldsTravel | OrderSyncClient/src/packet.cc:113-426 | any list of integer fields written, sealed, opened and read comes back unchanged |
| Packet.PacketBuffer.Begin | OrderSyncClient/inc/packet.h:45-66 | the buffer is there, its command set and its length that of the header |
| Packet.PacketBuffer.WriteField | OrderSyncClient/src/packet.cc:113-220 | appends the field in network order |
| Packet.PacketBuffer.End | OrderSyncClient/inc/packet.h:68-88 | the bytes written become the sealed packet of the payload and the command |
| Packet.PacketBuffer.ParsePacket | OrderSyncClient/src/packet.cc:398-426 | accepts exactly the packets that open, and holds the payload then |
| Packet.PacketBuffer.ReadField | OrderSyncClient/src/packet.cc:266-352 | the next field, and the index moves behind it |
| RawCache.Cache.Append | OrderSyncServer/src/proxy/cache.cpp:28-87 | on all three paths the queue of bytes grows by the data, or is unchanged when the pool has no block; exactly one block is held while there is one |
| RawCache.Cache.Skip | OrderSyncServer/src/proxy/cache.cpp:88-110 | the front leaves the queue; the block goes back when nothing is left |
| Framing.HandleInput | OrderSyncServer/src/proxy/client_unit.cpp:314-342 | -1 exactly for a whole header without its mark or announcing more than 8000 bytes, 0 exactly while header or announced bytes are missing, else the announced length |
| Framing.VerdictStable | OrderSyncServer/src/proxy/client_unit.cpp:314-342 | a verdict that is not 0 stays when more bytes come |
| Framing.DispatchResumes | OrderSyncServer/src/proxy/client_unit.cpp:293-309 | dispatching can stop at any byte and go on later with the same outcome |
| Framing.ChunkingIrrelevant | OrderSyncServer/src/proxy/client_unit.cpp:253-312 | packets and failure depend on the bytes alone, not on how they were cut |
| Framing.SameBytesSameResult | OrderSyncServer/src/proxy/client_unit.cpp:253-312 | two ways to cut the same stream give the same packets and the same failure |
| Framing.ClientPacketFramed | OrderSyncClient/inc/packet.h:45-88 | a packet of the client is cut off the stream at exactly its length |
| Framing.EndToEnd | OrderSyncServer/src/proxy/client_unit.cpp:253-342 | any packets of the client, joined and cut anywhere, are dispatched as exactly those packets, as far as the handler accepts them |
| Framing.FieldsEndToEnd | OrderSyncClient/src/packet.cc:113-426 | and open, on the other side, to the fields that were written |
| ClientUnit.Unit.ProcPkg | OrderSyncServer/src/proxy/client_unit.cpp:253-312 | after every chunk the packets dispatched and the bytes pending are those of the run over all chunks, for every outcome of recv |
| ClientUnit.Unit.DispatchBuffer | OrderSyncServer/src/proxy/client_unit.cpp:293-311 | the loop empties the buffer as far as complete packets go |
| ClientUnit.Unit.Send | OrderSyncServer/src/proxy/client_unit.cpp:148-211 | until a fatal error bytes sent and bytes pending make up the bytes appended, and write interest is on exactly when bytes remain; errors are fatal at once or when they repeat |
| ClientUnit.Unit.AddRspBuf | OrderSyncServer/src/proxy/client_unit.cpp:248-251 | the bytes join those pending |
| ClientUnit.Unit.Recv | OrderSyncServer/src/proxy/client_unit.cpp:110-146 | the connection state follows the decode status |
| TimerLinks.RemovedOk | OrderSyncServer/src/include/list.h:79-105 | taking an entry out of its circle keeps every list, without that entry |
| TimerLinks.AppendedOk | OrderSyncServer/src/include/list.h:37-70 | and putting it behind the last one of a list appends it there and changes no other list |
| TimerLinks.ListDelInit | OrderSyncServer/src/include/list.h:101-105 | the pointers after the operation, also for an entry on no list |
| TimerLinks.ListMoveTail | OrderSyncServer/src/include/list.h:122-127 | the pointers after the operation, also when the entry is on that list already |
| TimerLinks.TakeOff | OrderSyncServer/src/include/list.h:101-105 | the lists behind the pointers lose the entry |
| TimerLinks.MoveToTail | OrderSyncServer/src/include/list.h:122-127 | the entry leaves its list and becomes the last of the other |
| TimerLists.AttachedInOrder | OrderSyncServer/src/core/timerlist.cpp:18-23 | with a clock that does not run back, attaching keeps every list sorted by expiry |
| TimerChecks.FiredExactly | OrderSyncServer/src/core/timerlist.cpp:118-130 | a check fires a timer on a timed list exactly when it expires now or earlier |
| TimerChecks.OneListFires | OrderSyncServer/src/core/timerlist.cpp:25-41 | of one list the front part that is due is fired, in order, and the rest is not due |
| TimerChecks.DueFrontFires | OrderSyncServer/src/core/timerlist.cpp:31-39 | whatever notified timers attach themselves to, the loop over one list fires just its due front, in order, and returns: whoever came back to that list has an expiry behind the time of the check |
| TimerChecks.PendingFires | OrderSyncServer/src/core/timerlist.cpp:105-116 | the pending list is fired in order and left empty, where none of its timers attaches itself to it again |
| TimerChecks.DueFiresOnce | OrderSyncServer/src/core/timerlist.cpp:118-130 | one check of all lists fires each timer that was pending or due when it began exactly once, and nobody else, whatever lists with a positive timeout they attach themselves to |
| TimerChecks.NoneDueAfter | OrderSyncServer/src/core/timerlist.cpp:118-130 | then no timer on a list with a positive timeout is due any more, those that attached themselves again included |
| TimerChecks.StoppedByWaiting | OrderSyncServer/src/core/timerlist.cpp:31-39 | a timer that is not due stops the loop at the latest when it comes to the front |
| TimerChecks.KeptReturnsExactly | OrderSyncServer/src/core/timerlist.cpp:31-39 | where timers that come back keep their expiry and each always does the same, the loop returns exactly if a timer on the list is not due or none comes back |
| TimerChecks.TimedReturnsExactly | OrderSyncServer/src/core/timerlist.cpp:18-39 | the check of a timed list returns exactly if its timeout is positive, a timer on it is not due, or none of its timers attaches itself to it again |
| TimerChecks.PendingReturnsExactly | OrderSyncServer/src/core/timerlist.cpp:105-116 | the check of the pending list returns exactly if none of its timers attaches itself to it again |
| TimerChecks.FiresForEver | OrderSyncServer/src/core/timerlist.cpp:18-39 | a lone due timer on a list with timeout 0 that attaches itself to it again is fired without end |
| Timers.SleepIsTight | OrderSyncServer/src/core/timerlist.cpp:72-103 | the wait is neither longer than asked nor past the earliest expiry, and less than a millisecond short of one of the two |
| Timers.WaitIsEarliest | OrderSyncServer/src/core/timerlist.cpp:85-92 | scanning the heads finds the earliest expiry of all timers |
| Timers.TimerUnit.AttachTimer | OrderSyncServer/src/core/timerlist.cpp:18-23 | the timer is on that list only, at its end; all lists stay sorted and each timer on at most one |
| Timers.TimerUnit.DisableTimer | OrderSyncServer/src/include/timerlist.h:49 | the timer is on no list |
| Timers.TimerUnit.AttachZeroTimer | OrderSyncServer/src/include/timerlist.h:51 | the timer is the last of the pending list only |
| Timers.TimerUnit.GetTimerList | OrderSyncServer/src/core/timerlist.cpp:43-56 | the list of that timeout, made and put in front when there is none |
| Timers.TimerUnit.Fire | OrderSyncServer/src/core/timerlist.cpp:33-38 | the front timer is taken off, notified, and attaches itself to a timed list, to the pending list or to none; all lists stay sorted |
| Timers.TimerUnit.CheckExpiredList | OrderSyncServer/src/core/timerlist.cpp:25-41 | performs the rounds of the loop whenever it returns, with any callbacks; unless a timer comes back with its old expiry, it fires the due front in order and counts it, the list keeps the rest, and behind the rest of every list stand those that attached themselves to it, with new expiries |
| Timers.TimerUnit.CheckPending | OrderSyncServer/src/core/timerlist.cpp:105-116 | the same for the pending list, of which all are due |
| Timers.TimerUnit.CheckExpired | OrderSyncServer/src/core/timerlist.cpp:118-130 | fires the pending timers, then of each list what was due, in order; each list keeps the rest followed by the timers that attached themselves to it, in the order of firing; all lists stay sorted |
| Timers.TimerUnit.ListReturnsExactly | OrderSyncServer/src/core/timerlist.cpp:18-39 | of the unit: when the check of a timed list returns |
| Timers.TimerUnit.PendingListReturnsExactly | OrderSyncServer/src/core/timerlist.cpp:105-116 | of the unit: when the check of the pending list returns |
| Timers.TimerUnit.ExpireMicroSeconds | OrderSyncServer/src/core/timerlist.cpp:72-103 | the earliest head or the time asked for, in milliseconds, 0 when it has passed |
| Pipeline.EveryOrderFindsShard | OrderSyncServer/src/proxy/client_unit.cpp:47-50 | every order number finds its shard exactly when the n shards are numbered from 1 to n |
| Pipeline.SidIsRemainder | OrderSyncServer/src/proxy/client_unit.cpp:47-50 | the shard of an order is the remainder of its number by the number of shards, with that number for 0 |
| Pipeline.OrderPreserved | OrderDbSync/src/SyncFunc.cc:84-143 | in every interleaving with one consumer a shard: what was executed for an order, is held and is queued for it make up, in this order, what was received for it and not lost |
| Pipeline.RunsInOrder | OrderDbSync/src/SyncFunc.cc:84-143 | executed statements of one order stand in the order of arrival and none is executed twice |
| Pipeline.OneConsumerExactly | OrderDbSync/src/SyncFunc.cc:84-143 | all interleavings keep that order exactly when a shard has a single consumer |
| Pipeline.DrainedIsComplete | OrderDbSync/src/SyncFunc.cc:84-143 | without a failure, once a shard is drained, what was executed for an order is all that was received for it, in order |
| Pipeline.StepInv | OrderSyncServer/src/proxy/client_unit.cpp:689-729 | every step of server and consumers keeps the line of messages of every shard |
| Pipeline.WrittenOrderKnown | OrderSyncServer/src/proxy/client_unit.cpp:703-715 | a message printed from an order is routed by the number that order has |
| Pipeline.WrittenNumber | OrderSyncServer/src/proxy/client_unit.cpp:698-705 | that number is the member "id", where "mtime" is an integer and "sql" a text |
| Pipeline.WrittenStatement | OrderDbSync/src/SyncFunc.cc:103-125 | the statement of a printed order: with the table named for "stime" if "type" is 0 and for "mtime" otherwise; none without a table name, an exception for fields of other types |
| Pipeline.OrderFlow.DataFlow | OrderSyncServer/src/proxy/client_unit.cpp:689-729 | parses, routes and enqueues at the tail; -1 exactly for a text that does not parse or without a shard, an exception exactly for fields of other types; for a printed order the shard is that of its member "id" |
| Pipeline.OrderFlow.SyncOrder | OrderDbSync/src/SyncFunc.cc:84-143 | takes the head of the queue, makes its statement and executes it, or loses it to a failure; for a printed order that is the statement with the table of the right time; -1 exactly for a lost connection, a text that does not parse or no table name |
| Pipeline.TableExchanged | OrderDbSync/src/SyncFunc.cc:117-125 | the name of the old table is exchanged for the new one exactly when it has 19 characters, or fewer and the statement ends with it |
| Pipeline.LongNameLeft | OrderDbSync/src/SyncFunc.cc:120 | a name of 20 characters leaves its last one behind |
| Pipeline.OrderFlow.ReadStatement | OrderDbSync/src/SyncFunc.cc:103-125 | the statement that the message stands for, or how the consumer gives up, as WrittenStatement has it for printed orders |

## Left out

- Markup.Editor.SetDoc: the whole index is promised for texts of well-formed trees: attribute values in quotes without a greater-than sign, names without special characters, at most one root. For other texts it says what the parse stores. Texts on which the parser does not end are excluded (ParserHangsExactly).
- Markup.Editor.AddElem: InsertElem of the document element into the empty document is excluded: the program then reads behind the end of the text.
- Markup.Editor.GetAttrib: names are those an attribute can have; the same holds for SetAttrib and for the names of new elements.
- Markup.Editor.GetData: reading without a current element in a document without a document element is excluded: the program then reads by the offsets of the pseudo record 0.
- Editing of nodes other than elements, AddSubDoc, GetChildSubDoc, attribute removal, saved positions, files and error texts of the editor.
- Markup.Editor.ParseDocument: what stands behind the document element is never parsed by the program; the trees of the model hold it as text.
- Timers.TimerUnit.CheckExpired: a notified timer may attach itself to lists with a positive timeout, and to the pending list behind the pending round; for other lists each check by itself says when it returns. That callbacks attach, delete or disable other timers or make new lists is left out.
- TimerChecks.FiredExactly: lists have positive timeouts; lists with others are attached to, but their timers keep an old expiry, as in the program.
- JsonRoundTrip.WrittenReadsBack: values with reals are left out; printing and reading a double are parameters of writer and reader. Strings hold bytes other than NUL.
- JsonText.AnyTextReads: strings are what stands before a first NUL, as in the program. What the reader of doubles accepts is a parameter.
- JsonStyled.StyledErases: needs of the printing of doubles that it yields a word without white space and quotation marks.
- JsonReader.Reader.Parse: comments are skipped as the program skips them, but not attached to values, and the places of errors are not kept. Text behind the root value is not read, as in the program.
- JsonNumber.NumberExact: a sign without digits is read as 0 by the program; the lemma speaks of tokens with digits. The least 64-bit number is negated as two's complement does, which C++ leaves open.
- JsonValue.OrderLaws: doubles are real numbers, so there is no NaN.
- Value::resize, removeMember, Path, the stream writers and the compiled-out internal maps of the JSON library.
- Packet.PacketBuffer.WriteField: integer fields only; strings and doubles are left out, and a write that does not fit the buffer is excluded, which the program does not check.
- Packet.PacketBuffer.ParsePacket: sizes below the nine header bytes, or beyond a buffer allocated before, are excluded; the program does not check them.
- RawCache.Cache.Append: sizes are not wrapped at 2 to the 32. The pool may have no block, which the program answers by an exception.
- Framing.EndToEnd: the handler of a packet is any function that accepts or rejects it, given the packets before.
- ClientUnit.Unit.ProcPkg: recv, send and the event loop are parameters: the bytes received, the count sent, or an error. Chunks of 23 bytes that begin like a policy request take that branch and belong to no run.
- Pipeline.OrderFlow.SyncOrder: MySQL executes or fails. The statement is that of the build with partitioned tables, as the build files set it; the added column of the other build is left out, and so are changes of the shard list while orders are under way. The name for a time is a parameter.
- Pipeline.Prepare: a real beyond 32 bits, whose cut C++ leaves open, counts as an exception.
- Logging, sockets, shared memory, the helper servers, cipher and input packet classes of the server, INI and configuration files.
