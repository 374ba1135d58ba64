# axx: a Dafny model of its codecs, lexers, tree algebra and protocols

axx is a command-line tool for acceptance tests. Inside it are codecs, lexers, rules and small protocols
whose comments promise a lot; this project models them and proves those promises, for every input and every
run.

| module | what it models |
|---|---|
| `AvroBinary` | the reader of Avro's binary encoding over recursive schemas, against the encoding itself |
| `HashMapOrder` | the order java.util.HashMap iterates in: a closed form, against the table filled one key at a time |
| `TwosComplement` | decimals as big-endian bytes |
| `Json` | the grammar of RFC 8259 with every character kept, and a reader of it |
| `ValueExpand`, `ValueRule` | the rule that reads a cell as a typed value, repairs numbers, and rewrites the strings in raw JSON |
| `ColumnType` | the check of a cell against its column, and what it proposes |
| `CanonicalJson` | the canonical and the compact printer of trees |
| `Regex`, `Glob` | the expressions globs are compiled to, and the compiler |
| `SqlLexer`, `SqlPrint` | the splitter of SQL scripts, and a printer it undoes |
| `PdfLexer` | the reader of a PDF page's content stream |
| `FixtureTrees`, `Paths`, `Modal`, `SharedTree`, `PinnedDelta` | merging and subtracting trees, dotted paths into them, and adoption: many trees as a prototype and deltas, or trees as what their factory's prototype leaves |
| `Inbox` | a listener's inbox, read by checks while it is filled, as a state machine over its steps |
| `CommandHooks` | a command between its hooks, with its answers held |
| `SelectPacks` | which packs a project loads, and in what order |
| `Shard` | which scenarios a shard of a run has |
| `Sorting` | the stable sort, and when it has one outcome |
| `Graphs` | ranks of a finite graph: they exist exactly where it has no cycle |
| `Numbers`, `Sequences`, `Wrappers` | digits, division, facts about sequences, and optional values, for all of these |

Where the source changes state, the model is a class or a method over arrays with loops, proved equal to a
function of the text, table or state; the lemmas are about that function. Readers are defined on the text from
the cursor on, and the theorem of each says that what was written is read back with the rest left.

Some promises hold only in part. Each has a lemma with a case that fails and, but where it says otherwise, the
exact condition, proved both ways for all inputs:

- Globs. A class is as documented exactly when no range of it goes across a separator (`Glob.SlashOnly`); two stars
  are on exactly the paths without a line end (`Glob.LineEndsOnly`). The expression written for a glob is the
  glob's own exactly when no class is empty (`Glob.TextParsesUnlessEmpty`, with `Glob.EmptySetDiffers`); that is
  exact for the expression, and goes one way for what the expression matches: without an empty class it matches
  what the glob does (`Glob.CompileGlob`), and of a glob with one nothing is said of the paths.
- SQL. What is printed splits back exactly when no statement goes on, after control characters it starts with, with
  what starts a statement (`SqlPrint.SplitPrinted`, with `SqlPrint.ControlCuts`).
- Adoption. A tree is restored exactly when to every field left out for an identity, or to all in it, an identity's
  path leads, as when no name has a dot or a bracket (`SharedTree.SharedRestores`, with `SharedTree.DottedLost`).
- Subtraction: `subtract` drops what a row repeats of its template, but `deepMerge` replaces lists, so outside
  data sets, whose rows are merged one by one, such a row is not restored (`FixtureTrees.SubtractRestoresReplacing`,
  with `FixtureTrees.RowLost`; `PinnedDelta.ExtractedRestores` once identities are put back).
- PDF. A bare carriage return in a string is kept, where ISO 32000-1 reads a line feed
  (`PdfLexer.StandardUnlessReturn`); a comment before an array's closing bracket hides it
  (`PdfLexer.ArrayReadsUnlessComment`), arrays leave out true, false and null (`PdfLexer.AllItemsUnlessKeyword`), and
  comments in a dictionary are read as its contents: its end is found exactly when its text closes what it opens
  (`PdfLexer.DictReads`, with `PdfLexer.CommentInDict`).
- Packs are told apart by name, so a second one of a name is skipped with all it requires
  (`SelectPacks.ClosureUnlessAmbiguous`, with `SelectPacks.AmbiguousSkips`).
- Shards are free of the order of loading exactly when no two scenarios have one file and line
  (`Shard.OrderFreeWhenDistinct`).

Parameters stand for what the model does not decide: the expansion of references, which words of a content
stream are numbers, Unicode's letters and digits beyond ASCII, what hooks and commands end with and which
writes fail, the order of a run's steps, and which packs are compiled in.

## Model

| member | source | states |
|---|---|---|
| `AvroBinary.RoundTrip` | internal/avrojson/binary.go:80-217 | Of every schema, recursive ones included, and every datum of it, however its arrays and maps are split into blocks and whether a block gives its size, reading its encoding followed by any bytes gives the value it stands for and leaves just those bytes. |
| `AvroBinary.BlocksRoundTrip` | internal/avrojson/binary.go:150-190 | Any split of a list's or map's items into blocks, of positive counts or of negative ones followed by a size, is read to the same items in order, up to after the zero block. |
| `AvroBinary.ItemsRoundTrip` | internal/avrojson/binary.go:158-189 | A block's items are read one after another, keys included, and what follows the last is read as the next block. |
| `AvroBinary.HeaderReads` | internal/avrojson/binary.go:66-78 | A block's header gives its number of items, a written size skipped. |
| `AvroBinary.BranchReads` | internal/avrojson/binary.go:202-215 | A union's index and branch give that branch's value under the branch's name. |
| `AvroBinary.FieldsRoundTrip` | internal/avrojson/binary.go:191-201 | A record's fields are read in schema order, each to its own value. |
| `AvroBinary.LongReads` | internal/avrojson/binary.go:36-50 | A zigzag varint of up to 5 or 10 bytes is read back to the 32-bit or 64-bit integer written, the least and greatest included. |
| `AvroBinary.CountedReads` | internal/avrojson/binary.go:121-133 | Bytes and text after their length are read back whole. |
| `AvroBinary.BinReader.ReadVarint` | internal/avrojson/binary.go:36-50 | The loop over a varint's bytes, wrapping at 64 bits, gives what the encoding's definition does of the bytes left; the cursor only grows and stays in the data. |
| `AvroBinary.BinReader.ReadTake` | internal/avrojson/binary.go:52-62 | Takes a number of bytes that is neither negative nor more than are left, or fails without reading out of range. |
| `AvroBinary.BinReader.ReadBlockCount` | internal/avrojson/binary.go:66-78 | A block count, the absolute value of a negative one, and that of the least 64-bit integer, which stays negative. |
| `AvroBinary.BinReader.ReadValue` | internal/avrojson/binary.go:80-217 | On any bytes the reader ends, its cursor only grows and stays in range, and what it gives and leaves is what the encoding's definition says, of every schema whose cycles go through a union, an array or a map. |
| `AvroBinary.RanksWhenWellFounded` | internal/avrojson/binary.go:80-217 | The ranks the reader's contracts ask for exist exactly of a schema whose names are all defined, stand for no other name, and reach themselves only through a union, an array or a map. |
| `AvroBinary.BinReader.ReadBlocks` | internal/avrojson/binary.go:150-190 | The loop over blocks and their items ends on any bytes, whatever the counts and even for items of no bytes, with the items the definition reads. |
| `AvroBinary.BinReader.ReadFields` | internal/avrojson/binary.go:191-201 | The loop over a record's fields reads what the definition does. |
| `AvroBinary.DecodeBinary` | internal/avrojson/binary.go:18-25 | Decoding gives the value at the head of the data, or nothing where the definition has none. |
| `AvroBinary.DecodeEncoded` | internal/avrojson/binary.go:18-217 | Decoding what was encoded gives the datum's value, whatever follows it. |
| `HashMapOrder.ClosedFormIsTable` | internal/avrojson/hashmap.go:31-64 | For every list of entries, repeated keys included, and every hash, the closed form lists them as a chained table of capacity 16 does after one put each, a load over three quarters splitting every chain in two, in order; and the closed form's capacity is that table's last one. |
| `HashMapOrder.CapacityLeast` | internal/avrojson/hashmap.go:47-50 | The capacity is a power of two from 16, its threshold holds every key, and that of half of it does not. |
| `HashMapOrder.OrderPermutes` | internal/avrojson/hashmap.go:39-43 | The order lists every index of a key, once. |
| `HashMapOrder.StableSortGroups` | internal/avrojson/hashmap.go:62-62 | The stable sort by bucket lists the buckets in turn, each in the order of insertion. |
| `HashMapOrder.OrderedEntriesAgree` | internal/avrojson/hashmap.go:85-122 | Every key of a map is listed exactly once, with the value the last entry of that key has, which is what Get gives; no other key is. |
| `HashMapOrder.UnorderedAgree` | internal/avrojson/hashmap.go:101-121 | So it is of a Go map, whose keys are taken in the order of their bytes: each is listed once with its value. |
| `Sorting.TextsSortAlike` | internal/avrojson/hashmap.go:101-106 | However Go iterates over a map, its keys sort to one order. |
| `HashMapOrder.MaskIsRemainder` | internal/avrojson/hashmap.go:60-60 | Masking by a power of two less one is the remainder by that power. |
| `HashMapOrder.Get` | internal/avrojson/hashmap.go:22-29 | The value of the last entry of a key, if there is one. |
| `HashMapOrder.Utf8Hash` | internal/avrojson/hashmap.go:68-74 | The loop over signed UTF-8 bytes from 1 gives 31 to their number plus the sum of each times a power of 31, modulo two to the 32nd. |
| `HashMapOrder.JavaStringHash` | internal/avrojson/hashmap.go:77-83 | The loop over UTF-16 units gives the sum that defines a Java string's hash, modulo two to the 32nd. |
| `Sorting.SortStable` | internal/avrojson/hashmap.go:62-62 | The stable sort leaves what is in an array, in place, in its stable order: indexes by bucket here, keys by their bytes, scenarios by file and line. |
| `HashMapOrder.JavaHashMapOrder` | internal/avrojson/hashmap.go:39-64 | The loops over capacities and keys, and the sort, give the closed form's order, for either hash. |
| `HashMapOrder.EntriesInOrder` | internal/avrojson/hashmap.go:88-122 | A map's entries in that order: an ordered map's with repeated keys merged at their first position, and a Go map's by its sorted keys, in whatever order it is iterated over. |
| `TwosComplement.TwosComplement` | internal/avrojson/render.go:619-647 | Of every integer and size the bytes, inverted in place for a negative one, are that integer in big-endian two's complement, and as many as the size or the fewest it fits in, the larger of the two. |
| `TwosComplement.FitsWhenShortest` | internal/avrojson/render.go:617-626 | The fewest bytes are just that: an integer fits in k bytes exactly when k is no less. |
| `TwosComplement.MinimalIsShortest` | internal/avrojson/render.go:624-637 | Bytes that do not begin with a byte of sign for nothing are the fewest. |
| `TwosComplement.SignExtends` | internal/avrojson/render.go:640-645 | A byte of the sign before the others changes nothing. |
| `TwosComplement.UnscaledNearest` | internal/avrojson/render.go:612-615 | A decimal at a scale is exact when the scale holds it, and else the nearest toward zero. |
| `ValueRule.ProposalsAccepted` | core/value.go:429-440 | Of every text refused as a number, the plain form is proposed exactly when the text is number-like; the rule accepts it, as the kind and with the exact rational value of the text; and the quoted form reads back as the text itself. |
| `ValueRule.PlainNumberReads` | core/value.go:444-482 | Every number-like text has a plain form, of the very same rational value: a decimal when it has a dot, an exponent or a float suffix, a long when it is an integer with an l, else an integer. |
| `ValueRule.PlainPartsSame` | core/value.go:461-480 | Dropping zeros before a number and putting one after its dot keeps its value. |
| `ValueRule.SpecialIsNoNumber` | core/value.go:420-427 | NaN and the infinities are never number-like, so no plain form is proposed for them. |
| `ValueRule.ValueIsJson` | core/value.go:269-312 | Every value the rule accepts is valid JSON, or empty for undefined. |
| `ValueRule.QuotedParses` | core/value.go:275-276 | Text in double quotes reads as the text, whatever it is. |
| `ValueRule.NumberParses` | core/value.go:288-293 | Every JSON number is accepted as it is written: an integer without a fraction and an exponent, else a decimal. |
| `ValueRule.LongParses` | core/value.go:290-291 | An integer with an l is a long of that integer. |
| `ValueRule.TextIsStrings` | core/value.go:318-340 | Reading text gives a string exactly when reading a value gives that string. |
| `ValueRule.TextProposalRight` | core/value.go:330-339 | What a refusal of text proposes is then read as that text. |
| `ValueRule.MakePlainNumber` | core/value.go:444-482 | The repairer, part by part, gives the plain form those lemmas are about. |
| `ValueRule.ExpandValue` | core/value.go:347-381 | An expanded value keeps its text and kind, and its JSON is the expansion of its JSON. |
| `ValueExpand.Expand` | core/value.go:347-381 | On any valid JSON text no index is out of range, and the result is the text of the same value with only those strings replaced that hold a reference, each by a string denoting its expansion; it fails only when an expansion does. |
| `ValueExpand.ValueText` | core/value.go:349-378 | Scanning for quotes without parsing gives the text of the value expanded as a tree. |
| `ValueExpand.ExpandedKeeps` | core/value.go:342-346 | Expanding keeps every number, white space, bracket and other string where it was, and the value stays valid JSON. |
| `ValueExpand.TextExpands` | core/value.go:347-381 | So expanding any valid text gives the text of the same structure with its strings expanded. |
| `ValueExpand.UnquoteQuote` | core/value.go:484-490 | Every string, quoted as JSON, reads back as itself. |
| `ValueExpand.ClosingQuote` | core/value.go:356-362 | The scan for a string's closing quote stays in the text and stops where the string's grammar does. |
| `ColumnType.AdviceAccepted` | internal/columntype/columntype.go:86-174 | Whatever value a column's refusal proposes, the rule accepts it and the same column then takes it. |
| `ColumnType.NumberAdviceExact` | internal/columntype/columntype.go:105-154 | What an integer or decimal column proposes is exactly the number the cell, or the text inside its quotes, denotes. |
| `ColumnType.WholeProposes` | internal/columntype/columntype.go:219-226 | A decimal is proposed as an integer only when it is that whole number. |
| `ColumnType.ParsedTyped` | core/value.go:269-312 | Whatever the rule reads has JSON of its kind, which is all the lemmas about columns ask of a value. |
| `ColumnType.KindOfClass` | internal/columntype/columntype.go:191-206 | The class of such a value is that of its JSON: a string's, an integer's, a decimal's or a boolean's. |
| `Json.TextReads` | core/value.go:296-296 | A reader of RFC 8259's grammar takes a text exactly when it is the text of some value with its white space, and gives that value: it is sound and complete. |
| `Json.ValueReads` | core/value.go:294-305 | Every value printed in the grammar is read back, with what follows it left. |
| `Json.ValueSound` | core/value.go:294-305 | What is read of any text is a value whose text, with what is left, is that text. |
| `CanonicalJson.CanonicalReads` | internal/fixtures/canonical.go:19-89 | An RFC 8259 reader applied to the canonical text of a tree gives back the tree, the order of its members and the text of its numbers included. |
| `CanonicalJson.CanonicalDetermines` | internal/fixtures/canonical.go:19-89 | Two trees have one canonical text exactly when they are the same. |
| `CanonicalJson.CompactIsStripped` | internal/fixtures/canonical.go:137-168 | Taking the white space outside strings from the canonical text gives exactly the compact text. |
| `CanonicalJson.StripPrint` | internal/fixtures/canonical.go:137-168 | Of any valid JSON text, not only the canonical one, what is left is the text of the same value without its white space. |
| `CanonicalJson.WriteJSON` | internal/fixtures/canonical.go:33-89 | The recursive writer appends the value's canonical text to what is there, at any level. |
| `CanonicalJson.WriteJSONString` | internal/fixtures/canonical.go:106-133 | The loop over a string's characters appends a literal that denotes the string. |
| `CanonicalJson.WriteCompact` | internal/fixtures/canonical.go:143-168 | The compact writer appends the compact text to what is there. |
| `CanonicalJson.CanonicalJSON` | internal/fixtures/canonical.go:19-24 | The canonical text of a tree, with its last line ended. |
| `CanonicalJson.CompactJSON` | internal/fixtures/canonical.go:137-141 | The compact text of a tree, which is its canonical one stripped. |
| `Glob.CompileGlob` | internal/fixtures/glob.go:14-114 | Of any glob: what is compiled is the expression its text denotes, and that is the glob's own exactly when no class is empty. Then it matches exactly the paths the glob does; and, where no range of a class goes across a separator, exactly those its documentation gives, of every path without a line end, and of every path when there are no two stars. |
| `Glob.TextParsesUnlessEmpty` | internal/fixtures/glob.go:14-114 | The text written for a glob denotes the expression of the glob's pieces exactly when no class of it is empty. |
| `Glob.TextParses` | internal/fixtures/glob.go:14-114 | Without an empty class that text is a well-formed expression, unless a class has a range that goes backwards. |
| `Glob.GlobMeans` | internal/fixtures/glob.go:14-114 | That expression's language is the glob's: a star within a segment, two across, any character, classes, alternatives and escapes. |
| `Glob.EmitPieces` | internal/fixtures/glob.go:25-113 | One pass with the state of a group writes the text of the pieces, or refuses what they refuse. |
| `Glob.Documented` | internal/fixtures/glob.go:35-105 | As documented and as compiled a glob matches the same paths, when no class goes across a separator: all of them without two stars, and those that have no line end with them. |
| `Glob.LineEndsOnly` | internal/fixtures/glob.go:96-102 | Two stars take what is documented on a path exactly when it has no line end. |
| `Glob.SlashOnly` | internal/fixtures/glob.go:35-76 | The expression of a class matches what is documented for the class exactly when no range of it goes across a separator. |
| `Glob.EmptySetDiffers` | internal/fixtures/glob.go:35-76 | Such a glob is "[][x]", of an empty class and another: it matches nothing, but its expression matches ")". |
| `Glob.ScanClass` | internal/fixtures/glob.go:53-71 | The loop over a class's characters escapes them and stops at its bracket, or refuses a separator. |
| `Glob.CompileClass` | internal/fixtures/glob.go:35-76 | A class's text, negated or not, its first character escaped where it stands for itself, and where it ends. |
| `Glob.GlobText` | internal/fixtures/glob.go:25-112 | The loop with the state of a group writes what one pass over the glob does, from the start of the path to its end. |
| `SqlPrint.SplitPrinted` | internal/fixtures/ddl_lex.go:62-303 | Any list of statements that are not routines, printed one a line, tokens a space apart and quotes doubled, control characters and invalid bytes as symbols included, is split back to exactly those statements and tokens, outside MySQL mode, if and only if in no statement the text after control characters it starts with starts a statement. |
| `SqlPrint.AllRun` | internal/fixtures/ddl_lex.go:66-139 | Whatever was split before, splitting what is printed of such statements adds exactly the statements printed. |
| `SqlPrint.AllRunCut` | internal/fixtures/ddl_lex.go:73-78 | Where some statement is cut so, it never does. |
| `SqlPrint.TokensRun` | internal/fixtures/ddl_lex.go:66-139 | A printed line's tokens are read back in turn, none of them merged, split or taken for a comment, a dollar quote or a prefix. |
| `SqlPrint.LineIsSql` | internal/fixtures/ddl_lex.go:146-162 | A printed statement's line is never taken for a DELIMITER, GO or slash line, nor for a client's command. |
| `SqlPrint.QuotedReads` | internal/fixtures/ddl_lex.go:194-216 | Text with its quotes doubled is read back from between quotes. |
| `SqlPrint.ControlCuts` | internal/fixtures/ddl_lex.go:73-78 | A control character and CREATE are such a statement: it is cut at the word. |
| `SqlLexer.SplitSQL` | internal/fixtures/ddl_lex.go:62-143 | On any text, in either mode, the lexer's loops end, stay in range and give the statements its definition on the text left does. |
| `SqlLexer.Lexer.ReadTurn` | internal/fixtures/ddl_lex.go:66-139 | Every turn of the loop takes some of the text. |
| `SqlLexer.Lexer.ReadToken` | internal/fixtures/ddl_lex.go:114-138 | A token read is the one the definition takes, and takes some of the text. |
| `SqlLexer.Lexer.ReadQuoted` | internal/fixtures/ddl_lex.go:194-216 | The loop over quoted text gives what is between the quotes, doubled and escaped ones resolved, and how far it goes. |
| `SqlLexer.Lexer.TakeSpecialLine` | internal/fixtures/ddl_lex.go:146-162 | A DELIMITER, GO, slash or client line is taken whole, and ends the statement when it should. |
| `FixtureTrees.SubtractLosesNothing` | internal/fixtures/adopter.go:616-652 | Whatever the trees, what is left of a tree after subtracting a prototype merges with it to what the tree does, rows of lists included. |
| `FixtureTrees.SubtractRestores` | internal/fixtures/adopter.go:616-652 | So a tree is restored exactly when it, and each of its rows, has every field the prototype has. |
| `FixtureTrees.SubtractReplaces` | internal/fixtures/adopter.go:634-645 | Under the merge that replaces lists, what is left merges as the tree does exactly when no row repeats anything of its template. |
| `FixtureTrees.SubtractRestoresReplacing` | internal/fixtures/adopter.go:616-652 | Under that merge a tree is restored exactly when it has every field the prototype has and no row repeats its template. |
| `PinnedDelta.ExtractedRestores` | internal/fixtures/adopter.go:554-562 | With the tree's values put back at the identities its delta does not say, it is restored exactly when it has every field the prototype has and its fixture has whole every list of rows the prototype has a template for; when no identity's path goes into a list, putting back never fails, and that is exactly when no row repeats its template. |
| `PinnedDelta.Extract` | internal/fixtures/adopter.go:554-562 | The loop over identities gives that fixture, or none where one cannot be put back. |
| `FixtureTrees.SubtractWhole` | internal/fixtures/adopter.go:619-652 | Subtracting leaves a tree as it is exactly when it repeats nothing of the prototype. |
| `FixtureTrees.RowLost` | internal/fixtures/adopter.go:634-645 | A row equal to its template is lost under the merge that replaces lists. |
| `FixtureTrees.MergeKeeps` | internal/fixtures/values.go:55-74 | Merging a tree over a prototype gives the tree exactly when it has every field the prototype has. |
| `FixtureTrees.SubtractTree` | internal/fixtures/adopter.go:619-652 | The loop over a tree's members, and its rows, leaves what subtraction is defined to. |
| `SharedTree.SharedRestores` | internal/fixtures/adopter.go:206-220 | By the shared strategy, for every set of trees over a shape and any identities present in all of them, a tree's delta with its identities put back, merged over the prototype, restores that tree if and only if to each field the delta leaves out as an identity, or to everything in it, some identity's path leads; and putting them back never fails unless a path goes into a list. |
| `SharedTree.PlainPlaced` | internal/fixtures/adopter.go:730-735 | So it is, of a shape whose names have no dot and no bracket, and whose fields at the root have names, whatever the trees and the identities. |
| `SharedTree.DottedLost` | internal/fixtures/adopter.go:206-220 | However many trees of a field "a.b" and a field "a" with a field "b" there are, with the identity "a.b" and whatever values, each loses the first of them. |
| `Paths.SplitAt` | internal/fixtures/paths.go:18-37 | Two paths joined by a dot go through the names of the one and then of the other. |
| `Paths.PathPlain` | internal/fixtures/paths.go:18-37 | So no name a path goes through has a dot, or a bracket. |
| `SharedTree.SharedWithin` | internal/fixtures/adopter.go:973-1009 | The shared prototype says nothing any of the trees does not: no field of it is ever absent from one, and each value is that tree's. |
| `SharedTree.AdoptedMerges` | internal/fixtures/adopter.go:818-841 | Over any prototype, a tree's delta with its identities put back merges as the tree does, where fields are placed so. |
| `SharedTree.AdoptedRestores` | internal/fixtures/adopter.go:206-220 | By either strategy a tree whose fields are placed so is restored exactly when it has every field the prototype has. |
| `SharedTree.CommonAdds` | internal/fixtures/adopter.go:751-784 | By the common one it may not: a map two trees fill and a third leaves empty is filled in the third. |
| `SharedTree.DeltaWithin` | internal/fixtures/adopter.go:818-841 | A delta says nothing its tree does not. |
| `SharedTree.PathSetWithin` | internal/fixtures/paths.go:61-142 | Putting back a tree's own value at a path, through maps and into lists, makes the maps it needs, leaves as much as there was and nothing the tree does not say, and has the value there; it fails only when the path goes into a list. |
| `SharedTree.PrototypeTree` | internal/fixtures/adopter.go:975-1009 | The loop over a shape's fields gives the prototype of either strategy. |
| `SharedTree.DeltaTree` | internal/fixtures/adopter.go:818-841 | The loop over a shape's fields gives the delta. |
| `Modal.UsualIsMost` | internal/fixtures/adopter.go:786-815 | No value is more frequent than the modal one, and none as frequent is first met earlier. |
| `Modal.MostFrequent` | internal/fixtures/adopter.go:786-815 | The loops over values and groups give that value and how often it is there. |
| `PdfLexer.LiteralReads` | internal/filecontent/lexer.go:164-219 | Every writing ISO 32000-1 section 7.3.4.2 permits of a string, of raw bytes, named escapes, one to three octal digits, escaped ends of line and balanced parentheses, is read to its bytes, up to just after the closing parenthesis. |
| `PdfLexer.EveryStringWrites` | internal/filecontent/lexer.go:203-210 | Every string of bytes has such a writing: three octal digits a byte. |
| `PdfLexer.StandardUnlessReturn` | internal/filecontent/lexer.go:168-216 | The bytes read are those the standard gives exactly when no carriage return is bare, which it reads as a line feed and the reader keeps. |
| `PdfLexer.HexReads` | internal/filecontent/lexer.go:221-254 | Every writing in hex, digits of either case, other characters between them, an odd last digit, is read to its bytes, up to just after the closing bracket. |
| `PdfLexer.NameReads` | internal/filecontent/lexer.go:147-162 | A name, its characters raw or as two hex digits, is read to its bytes. |
| `PdfLexer.DictReads` | internal/filecontent/lexer.go:124-145 | A dictionary, of any entries, written well or not, is read with the cursor just after its end, before every text, exactly when its text closes the strings and brackets it opens, and no others. |
| `PdfLexer.BodySkippedWhenBalanced` | internal/filecontent/lexer.go:124-145 | Of any text at all, the brackets that close a dictionary after it are found exactly then: the reader knows no comments there. |
| `PdfLexer.EntriesBalanced` | internal/filecontent/lexer.go:124-145 | Entries written well are such a text, whatever is nested in them and whatever their words, when no comment between them leaves anything open. |
| `PdfLexer.CommentInDict` | internal/filecontent/lexer.go:124-145 | A dictionary of a comment that opens a string has its end missed, and one whose next comment closes that string does not. |
| `PdfLexer.NodeReads` | internal/filecontent/lexer.go:57-122 | Every operand, arrays and dictionaries of any depth included, however its strings are written and whatever space and comments are between its tokens but before an array's end, is read back with the cursor just after it. |
| `PdfLexer.ArrayReadsUnlessComment` | internal/filecontent/lexer.go:102-122 | An array, of any items however written, is read back before every text exactly when no comment stands before its closing bracket. |
| `PdfLexer.CommentHidesBracket` | internal/filecontent/lexer.go:102-122 | After one the bracket is taken for a stray delimiter, and the array goes on with the token that follows. |
| `PdfLexer.AllItemsUnlessKeyword` | internal/filecontent/lexer.go:102-122 | What is read of an array is every item exactly when none is true, false or null, which arrays leave out. |
| `PdfLexer.StreamReads` | internal/filecontent/lexer.go:24-47 | A content stream of any operations, with space and comments anywhere between their tokens, is read back operation by operation, each with its operands in order, null for true, false and null. |
| `PdfLexer.Lexer.ReadLiteral` | internal/filecontent/lexer.go:164-219 | The loop over a literal string ends, stays in range and gives what its definition does. |
| `PdfLexer.Lexer.ReadOctal` | internal/filecontent/lexer.go:203-210 | Up to three octal digits give their value as a byte. |
| `PdfLexer.Lexer.ReadHex` | internal/filecontent/lexer.go:221-254 | The loop over a hex string gives what its definition does. |
| `PdfLexer.Lexer.ReadName` | internal/filecontent/lexer.go:147-162 | The loop over a name gives what its definition does. |
| `PdfLexer.Lexer.SkipDict` | internal/filecontent/lexer.go:124-145 | The loop that skips a dictionary ends, in range, where its definition does. |
| `PdfLexer.Lexer.ReadToken` | internal/filecontent/lexer.go:57-100 | On any bytes reading a token ends, stays in range, takes something unless it is at the end, and gives what its definition does. |
| `PdfLexer.Lexer.ReadArray` | internal/filecontent/lexer.go:102-122 | So does reading an array, with which it is mutually recursive. |
| `PdfLexer.Lexer.SkipInlineImage` | internal/filecontent/lexer.go:256-278 | An inline image is skipped to after the EI that ends it, never out of range. |
| `PdfLexer.Lexer.NextOperation` | internal/filecontent/lexer.go:24-47 | The next operator with its operands, images skipped; the cursor only grows. |
| `Inbox.RefusedSawAll` | internal/cloudstep/cloudstep.go:391-417 | In every interleaving of any checks with a listener that adds before it ends, what a check that fails because the inbox ended had seen is every message received in the whole run since its scenario started, in order, and none meets its conditions. |
| `Inbox.MatchNeverRefused` | internal/cloudstep/cloudstep.go:391-417 | So a message that meets them, added before the end, leads to that failure in no state of the run. |
| `Inbox.LookingFirstMisses` | internal/cloudstep/cloudstep.go:393-396 | Were a check to look first and ask after, it could fail having seen nothing, with such a message in the inbox. |
| `Inbox.RunKeeps` | internal/cloudstep/cloudstep.go:391-417 | What each check knows of the inbox holds in every state of every run. |
| `Inbox.EndedStays` | internal/cloudstep/cloudstep.go:345-355 | Once ended, the inbox holds what it does and keeps why. |
| `Inbox.Inbox.Add` | internal/cloudstep/cloudstep.go:326-334 | Adds one message at the end, received now when it does not say when. |
| `Inbox.Inbox.End` | internal/cloudstep/cloudstep.go:345-355 | Keeps the first reason of an end. |
| `Inbox.Inbox.ReadSince` | internal/cloudstep/cloudstep.go:364-376 | The messages received at a time or later, in order, and the failure, if there is one. |
| `Inbox.Conclude` | internal/cloudstep/cloudstep.go:397-416 | A check's outcome from what it read: a failed listener first, then the first message that is not a no, then whether it had ended. |
| `Inbox.LookOnce` | internal/cloudstep/cloudstep.go:391-417 | One turn of a check: it asks why the inbox ended, then reads it, then concludes. |
| `CommandHooks.PlanIsOrdered` | internal/cli/commandhooks.go:41-46 | What runs when nothing fails before the command is the command and every hook there is, each once and nothing else: the packs' in order, axx.yaml's, the command, axx.yaml's, the packs' in reverse. |
| `CommandHooks.FailureBeforeStops` | internal/cli/commandhooks.go:137-150 | When a hook before the command fails, it is the last thing that runs, nothing is answered, and the run ends with its error. |
| `CommandHooks.RunsAsPlanned` | internal/cli/commandhooks.go:151-213 | Otherwise everything runs as planned; where writes succeed, the run ends with the command's own error, or else that of the first hook after it; each answer is written once, in order, and only the last held is marked failed, exactly when a hook fails a command that succeeded. |
| `CommandHooks.FailedWriteEnds` | internal/cli/commandhooks.go:187-213 | Where a write fails and no hook before the command does, everything runs all the same; the answers before that one are written as the command gave them and no more, and the run ends with the failure to write, whatever the command or a hook ended with. |
| `CommandHooks.App.RunBefores` | internal/cli/commandhooks.go:137-150 | The loops over hooks before the command stop at the first failure. |
| `CommandHooks.App.RunAfters` | internal/cli/commandhooks.go:166-178 | The loops over hooks after it run all of them, and keep the first failure when the command had none. |
| `CommandHooks.App.WriteEnvelope` | internal/cli/app.go:142-148 | Holds an answer while holding, else writes it. |
| `CommandHooks.App.Release` | internal/cli/commandhooks.go:187-213 | Writes the answers held, the last of them failed when a hook did, and says what the run ends with. |
| `CommandHooks.App.RunWrapped` | internal/cli/commandhooks.go:119-179 | The trace, the answers written and the ending of a whole run are those the lemmas are about, and nothing is held after it. |
| `SelectPacks.ClosureUnlessAmbiguous` | internal/engine/engine.go:97-139 | Of any project: what is selected has everything listed and all that each of its members requires if and only if everything listed is compiled in and there are packs, core among them, that have everything listed and all they require, no two of one name. |
| `SelectPacks.SelectedComplete` | internal/engine/engine.go:97-139 | Where no two packs reached have one name, whatever is selected has everything listed and all that each of its members requires. |
| `SelectPacks.SelectedOnce` | internal/engine/engine.go:97-116 | Core is first, no name is there twice, and everything selected is in any closed set that has those listed: with the lemma before, it is exactly the closure. |
| `SelectPacks.SelectedInOrder` | internal/engine/engine.go:95-96 | Where requiring has no cycle in some closed set of packs that has those listed, each selected comes after all it requires. |
| `SelectPacks.OrderedWhenAcyclic` | internal/engine/engine.go:95-116 | Where no two packs reached have one name, what is selected is in such an order exactly when no pack of it requires itself, however far. |
| `SelectPacks.CompleteSelects` | internal/engine/engine.go:106-131 | Of any project: when everything listed and all that those require is compiled in, something is selected. |
| `SelectPacks.SelectSucceeds` | internal/engine/engine.go:106-131 | Where no two packs reached have one name, something is selected exactly when everything listed and all that those require is compiled in. |
| `SelectPacks.AmbiguousSkips` | internal/engine/engine.go:101-105 | Of two packs listed of one name the second is skipped, and what only it requires is never looked for, so something is selected that is not closed. |
| `SelectPacks.AddExtends` | internal/engine/engine.go:100-116 | Adding, whatever the graph, cycles included, ends, and adds one entry for each name it loads. |
| `SelectPacks.Selection.AddPack` | internal/engine/engine.go:100-116 | The recursive closure, marking what is loaded and appending, does what the definition does. |
| `SelectPacks.SelectPacks` | internal/engine/engine.go:97-139 | The loop over entries gives the selection the lemmas are about, or none. |
| `Shard.ShardsPartition` | internal/feature/shard.go:13-41 | For every number of shards each scenario is in exactly one. |
| `Shard.ShardSize` | internal/feature/shard.go:31-35 | How many a shard has: the same number, and one more for the first of them when they do not split evenly. |
| `Shard.SizesEven` | internal/feature/shard.go:14-17 | So the sizes of any two differ by one at most. |
| `Shard.FilterKeepsOrder` | internal/feature/shard.go:36-41 | A shard's scenarios are in the order given. |
| `Shard.OrderFreeWhenDistinct` | internal/feature/shard.go:14-41 | Which scenarios the shards have is free of the order they were loaded in, for every number of shards, if and only if no two scenarios have one file and line. |
| `Shard.LoadOrderFree` | internal/feature/shard.go:28-35 | Where no two scenarios have one file and line, each is in a shard or not whatever the order of loading. |
| `Shard.SameLineDepends` | internal/feature/shard.go:28-35 | Of two of one file and line, the one loaded first is in the first shard. |
| `Shard.ParseReads` | internal/feature/shard.go:45-54 | Every shard that can be asked for is read as written, whatever the spaces about its numbers. |
| `Sorting.AscendingUnique` | internal/feature/shard.go:28-30 | There is one order of scenarios by file and line, of those with distinct ones. |
| `Shard.Shard` | internal/feature/shard.go:18-42 | All scenarios for an empty spec, none for one that cannot be read, else those of the shard it names. |

## Left out

- Files, processes, the network, the terminal, command-line wiring and the wording of messages: a refusal is only that, with the form it proposes where a lemma is about it.
- Floating point: Avro's floats and doubles are their bits, and a PDF number is its word.
- Parsers of Avro schemas, Gherkin, YAML, workbooks and HTML, and the engine of regular expressions: `Regex` is the fragment of RE2 that globs need, with its own definition of matching.
- The limit of 10000 on JSON's nesting, strings that are not valid UTF-8, and the exponent limit of big.Rat: strings are sequences of characters, and numbers are exact.
- `Value.Is`, `sameJSON` and `sameNumber`: equality of decoded values.
- Doubles that are not finite, and bytes, in the canonical printer.
- Trees that a long chain of a HashMap turns into.
- `sqlCursor` and `splitCommas`, and folding of case beyond ASCII in SQL words.
- Routines, `DELIMITER`, `GO` and MySQL mode in printing SQL: they are in `SqlLexer`, whose loops end on them too. A statement that starts with a backslash or with `DELIMITER`, a byte order mark at the start, and `[` as a symbol are not printable, as the lexer reads them specially.
- SqlPrint.SplitPrinted: statements of routines are not printed, because where a body ends is told by its words.
- Glob.CompileGlob: which paths the expression of a glob with an empty class matches; it says that this is not the glob's own expression.
- The order of members in `FixtureTrees` and `SharedTree`, as trees are compared whatever it is; values shared between a delta and its tree; which string fields could be identities.
- PinnedDelta.ExtractedRestores: which rows identities whose paths go into lists make whole; of them it says what holds once they are put back.
- Inline images in `PdfLexer.StreamReads`: where their data ends is told by the data. A comment at the very end of a stream with no end of line.
- Waiting in `Poll`: a check that is not done yet may start again or give up at any time.
- Warnings of hooks after the first that fails, and what finds a command's hooks in axx.yaml.
