# Models of easylogging++ and miniupnpc

This project models two libraries that the repository carries under `external/` and proves what they are relied on
for. `dafny verify dfyconfig.toml` checks everything.

**easylogging++.** A logger is configured by a list of (level, type, value) entries, written directly or by a text
document, and compiled into sparse maps that fall back to a `Global` level (`Configurations`, `ConfigParser`,
`EscapedValues`, `ConfigNames`, `TypedConfigurations`, `ConfigValues`, `ConfiguredLogger`). A line format is compiled
once and filled in per message by dozens of in-place string edits with `%` escapes (`FormatScan`, `FormatSpecifiers`,
`FormatPipeline`, `LogLine`, `LineValues`), with dates rendered into a bounded buffer (`DateTime`). Which messages
pass is decided by a category list with globs (`Glob`, `Levels`, `Categories`), by module levels (`VModules`) and by
hit counters (`HitCounters`). The statement itself takes and releases the locks of loggers and of the library in a
protocol over several loggers and threads (`WriterProtocol`), its records are what was streamed into it
(`WriterHistory`), and whether they can block each other is a question of the order of the loggers (`LockOrder`).

**miniupnpc.** The 7-bit variable-length integers with one encoder and three decoders on machine words (`CodeLength`,
and `CodeLengthBits` for the bit operators), the XML parser and the event handlers that read a device description
(`MiniXml`, `XmlTrees`, `IgdDescription`, `DeviceXml`), and chunked HTTP bodies, from the server that builds them in a
buffer to the client that takes them apart (`ChunkedServer`, `ChunkedBody`, `ChunkSizes`, `ChunkedExtensions`,
`ChunkedReader`).

`Strings`, `Sequences`, `Decimals` and `Arithmetic` hold what several of these share.

The theorems to read first: `CodeLength.EncodeUndoesDecode`, `Glob.WildCardMatch`, `Categories.ParseUndoesPrint`,
`ConfiguredLogger.Configure`, `TypedConfigurations.MapAgreesWithRegistry`, `FormatScan.CompileThenReplace`,
`LogLine.LineMeaning`, `LineValues.LineShows`, `DateTime.ParseFormat`, `DateTime.DateIsReadBack`,
`HitCounters.EveryNthExactly`, `WriterHistory.RecordsSayIt`, `WriterProtocol.OuterTextIsLost`,
`LockOrder.NestingExactly`, `IgdDescription.RunIsFaithful`, `DeviceXml.ParseRootDesc`,
`ChunkedBody.AnyCutIsReassembled`, `ChunkSizes.SizeLineExactly`, `ChunkedServer.BuildChunkedResponse`.

Where a law fails for some inputs, the code is modelled as it is and the exact condition is proved: re-encoding a
decoded length, reading back a category list, comments and escaped quotes in a configuration document, precisions of
more than 32 bits, module names, replaying a base registry, the sparse maps, hit counters with large periods, chunk
extensions, and the size of the server's response buffer. A statement logged from within another statement on the same
logger is recorded with the text of the outer one in front, and the outer one loses that text; `WriterProtocol` has
the runs and proves the law for all others. Threads that log while they log can block each other; `LockOrder` says
exactly when. The fourth month is spelled "Apri" in the source and so it is here.

## Model

| member | source | states |
|---|---|---|
| CodeLength.EncodeLength | external/miniupnpc/codelength.h:48-52 | the bytes written are the code of n (continuation bits, no leading zero group, value n), as many as Size(n), and no other byte of the buffer changes |
| CodeLength.StoresAreCode | external/miniupnpc/codelength.h:48-52 | the five stores, each behind its threshold, make up the code of n for every 32-bit n |
| CodeLength.CodeIsUnique | external/miniupnpc/codelength.h:48-52 | a number has one code only |
| CodeLength.DecodeLengthCheckLimit | external/miniupnpc/codelength.h:37-42 | on any bytes: never past the limit, no bit of the value shifted out of 32 bits, stops where the loop condition says or at the limit, and on bytes that begin with the code of v reads that code and returns v |
| CodeLength.DecodeLength | external/miniupnpc/codelength.h:17-19 | reads exactly up to where the loop condition stops, returns the value of the bytes read, and on bytes that begin with the code of v reads that code and returns v |
| CodeLength.DecodeLengthRead | external/miniupnpc/codelength.h:24-31 | the same for the decoder that draws its bytes one by one |
| CodeLength.DecodeByte | external/miniupnpc/codelength.h:37-42 | one turn of a decoder, on 32-bit words and bytes, keeps the value exact and goes on exactly when the bytes read say so |
| CodeLength.StopIsUnique | external/miniupnpc/codelength.h:17-42 | where a decoder stops is determined by the bytes, so the three decoders agree |
| CodeLength.CodeStops | external/miniupnpc/codelength.h:17-52 | started on a code, every decoder stops exactly at its end |
| CodeLength.DecodeUndoesEncode | external/miniupnpc/codelength.h:17-52 | on bytes that begin with the code of n a decoder, ended by its condition or by the limit, reads that code, no more and no less, and returns n |
| CodeLength.EncodeUndoesDecode | external/miniupnpc/codelength.h:37-52 | encoding what was decoded gives back the bytes read if and only if the last one has its top bit clear and a longer input does not start with 0x80 |
| CodeLength.PrefixFree | external/miniupnpc/codelength.h:48-52 | no code is a proper prefix of another |
| CodeLength.ConcatenationDecodes | external/miniupnpc/codelength.h:17-52 | lengths written back to back can be read back in one way only |
| CodeLength.DecodeAll | external/miniupnpc/codelength.h:37-42 | decoding length after length up to the limit returns, for codes written back to back, the numbers they were written for |
| CodeLengthBits.ShiftInIs | external/miniupnpc/codelength.h:41 | shift, mask and or make the number times 128 plus the low seven bits, with nothing lost below 2^25 |
| CodeLengthBits.MoreIs | external/miniupnpc/codelength.h:42 | the test for one more byte on bits is the comparison with 128 |
| CodeLengthBits.LimitIs | external/miniupnpc/codelength.h:42 | the test that another group fits is the comparison with 2^25 |
| CodeLengthBits.ThresholdsAre | external/miniupnpc/codelength.h:48-51 | the four thresholds are those of the numbers |
| CodeLengthBits.ContIs | external/miniupnpc/codelength.h:48-51 | the byte stored for x \| 0x80 is 128 plus x modulo 128 |
| CodeLengthBits.LowIs | external/miniupnpc/codelength.h:52 | n & 0x7f is n modulo 128 |
| CodeLengthBits.Shift28Is | external/miniupnpc/codelength.h:48 | n >> 28 is n >> 21 divided by 128 |
| CodeLengthBits.Shift21Is | external/miniupnpc/codelength.h:49 | n >> 21 is n >> 14 divided by 128 |
| CodeLengthBits.Shift14Is | external/miniupnpc/codelength.h:50 | n >> 14 is n >> 7 divided by 128 |
| CodeLengthBits.Shift7Is | external/miniupnpc/codelength.h:51 | n >> 7 is n divided by 128 |
| Glob.WildCardMatch | external/easylogging++/easylogging++.cc:803-825 | ends on every string and pattern, and is true if and only if the string can be cut into one piece per pattern character: any piece for *, any character for ?, the character itself otherwise |
| Glob.SingleStep | external/easylogging++/easylogging++.cc:805-821 | a pattern not starting with * takes exactly one character, in terms of cuts |
| Glob.StarStep | external/easylogging++/easylogging++.cc:812-817 | * stands for nothing or takes one character and stays, in terms of cuts |
| Levels.FromPrefixIs | external/easylogging++/easylogging++.cc:87-105 | a text that starts with either spelling of a level converts to that level and to no other |
| Levels.PriorityPermits | external/easylogging++/easylogging++.cc:2005-2014 | comparing the numbers of two levels is asking which stands first in that order |
| Levels.AllLevels | external/easylogging++/easylogging++.cc:107-115 | the seven levels that are visited and Global are all there are |
| Categories.CategoryFilter.SetCategories | external/easylogging++/easylogging++.cc:1958-2002 | the entries become those parsed from the text, behind the old ones or in their place; a null pointer only clears |
| Categories.CategoryFilter.Allowed | external/easylogging++/easylogging++.cc:2016-2029 | true if and only if the category is there and the last entry whose glob matches permits the level, in the order Fatal, Error, Warning, Info, Debug, Verbose, Trace; an entry for Global permits all |
| Categories.AllowedIsMonotone | external/easylogging++/easylogging++.cc:2005-2029 | what a level may do, every level before it in that order may do |
| Categories.LaterBlockDecides | external/easylogging++/easylogging++.cc:2016-2029 | of two blocks of entries the later decides whenever something in it matches |
| Categories.NewestCallDecides | external/easylogging++/easylogging++.cc:1958-2029 | over any run of calls: the newest call that matches decides, a call that clears forgets the rest, and one that says nothing leaves the earlier decision |
| Categories.ScanIsFold | external/easylogging++/easylogging++.cc:1958-2002 | the character machine works item by item, carrying an incomplete item over into the next |
| Categories.ParseUndoesPrint | external/easylogging++/easylogging++.cc:1958-2002 | a printed list is read back entry for entry if and only if no name is empty and every text after a colon sets a level |
| Categories.NamedLevelsRoundTrip | external/easylogging++/easylogging++.cc:1958-2002 | every list of non-empty categories and named levels, in either spelling, comes back exactly |
| VModules.ModuleLevels.SetModules | external/easylogging++/easylogging++.cc:1886-1956 | the map becomes the old one with the parsed items entered in order |
| VModules.ModuleLevels.InsertModule | external/easylogging++/easylogging++.cc:1901-1922 | enters the extended names of a module, or its bare name when extensions are off |
| VModules.NamesAreExtended | external/easylogging++/easylogging++.cc:1888-1922 | the names entered for any list of extensions are base plus extension if and only if the base ends in none of them |
| VModules.NineNames | external/easylogging++/easylogging++.cc:1901-1922 | the same for the nine extensions of the source |
| VModules.ParseUndoesPrint | external/easylogging++/easylogging++.cc:1923-1955 | a printed list of modules and digits is read back item for item |
| VModules.FirstEntryWins | external/easylogging++/easylogging++.cc:1901-1922 | a name already there keeps its level, a new one has the level of the first item that enters it, and no other name is there |
| VModules.ModulesDecide | external/easylogging++/easylogging++.cc:1886-1956 | end to end: after a printed list of modules, none of which ends in an extension, a new name is there if and only if it is a module under an extension, with the level of the first such; other names stay as they were |
| Configurations.Registry.Get | external/easylogging++/easylogging++.h:1574-1580 | the first entry of a level and type, or the end |
| Configurations.Registry.UnsafeSet | external/easylogging++/easylogging++.cc:486-496 | changes the first matching entry in place or appends, and broadcasts a Global value |
| Configurations.Registry.UnsafeSetGlobally | external/easylogging++/easylogging++.cc:510-520 | the broadcast, with or without the Global entry |
| Configurations.Registry.Set | external/easylogging++/easylogging++.cc:282-288 | one entry written; for Global, every level after it |
| Configurations.Registry.SetGlobally | external/easylogging++/easylogging++.cc:498-508 | a run of calls of set |
| Configurations.Registry.SetToDefault | external/easylogging++/easylogging++.cc:297-323 | the run of its calls of set, in order |
| Configurations.Registry.SetFromBase | external/easylogging++/easylogging++.cc:249-257 | a replay of the entries of the base; nothing for a missing base or itself |
| Configurations.BroadcastIsIdempotent | external/easylogging++/easylogging++.cc:282-288 | the second broadcast that set makes for Global changes nothing |
| Configurations.SetLookup | external/easylogging++/easylogging++.cc:282-295 | after a write, a level it reaches has its value and every other level what it had |
| Configurations.RunLookup | external/easylogging++/easylogging++.cc:282-295 | after any run of calls every level has the value last written to it or to Global |
| Configurations.RunUnique | external/easylogging++/easylogging++.cc:486-496 | no run of calls makes two entries with one level and type |
| Configurations.RunFirst | external/easylogging++/easylogging++.cc:486-520 | the first entry of a type has the level of the first call about that type |
| Configurations.DefaultsThenCalls | external/easylogging++/easylogging++.cc:282-323 | after setToDefault and any calls: one entry per level and type, Global first for every type, and the value last written |
| Configurations.ReplayedValue | external/easylogging++/easylogging++.cc:249-257 | what a replay leaves at a level: its own value unless the base has its Global entry behind it |
| Configurations.AgreesWithBase | external/easylogging++/easylogging++.cc:249-257 | setFromBase agrees with the base on an entry if and only if no later Global entry of another value follows it in the base |
| Configurations.AbsentTypeUntouched | external/easylogging++/easylogging++.cc:249-257 | types the base does not have are left alone |
| TypedConfigurations.TypedView.constructor | external/easylogging++/easylogging++.cc:1604-1643 | after build, each of the eight maps is that of its type over the whole list of entries: per level, or under Global for the precision and performance tracking; BoolIs, NumberIs and PrecisionIs say what the values are |
| TypedConfigurations.TypedView.AddEntry | external/easylogging++/easylogging++.cc:1612-1643 | one turn of the loop over the entries keeps that |
| TypedConfigurations.BuildIsBuilt | external/easylogging++/easylogging++.h:2055-2075 | what the sparse map holds after any list with distinct keys: Global or first value, and the levels that differ from it |
| TypedConfigurations.MapAgreesWithRegistry | external/easylogging++/easylogging++.h:2022-2075 | the sparse map returns the registered value of every level if and only if the Global value, where there is one, parses like the first value of the type |
| TypedConfigurations.GlobalFirstIsFaithful | external/easylogging++/easylogging++.h:2022-2075 | with the Global entry first: registered levels give their own value, the others the Global one |
| TypedConfigurations.TypedValueIsLastWrite | external/easylogging++/easylogging++.cc:1604-1643 | after setToDefault and any calls of set, for the six types with values per level: the typed value of a level is the parsed value last written to it or to Global |
| TypedConfigurations.GlobalMapIsLastEntry | external/easylogging++/easylogging++.cc:1630-1634 | a type stored under Global only has the value of its last entry, for every level |
| TypedConfigurations.InfoStaysLast | external/easylogging++/easylogging++.cc:486-520 | the last entry of a type is that of Info once Global was written first |
| TypedConfigurations.GlobalOnlyValueIsInfo | external/easylogging++/easylogging++.cc:1604-1643 | the two types stored under Global only return, for every level, what was last written to Info or Global |
| ConfigValues.BoolIs | external/easylogging++/easylogging++.cc:1606-1609 | whatever white space stands around it, a value is true if and only if it is TRUE, true or 1 |
| ConfigValues.NumberIs | external/easylogging++/easylogging++.cc:1658-1671 | digits are their number up to the largest long, everything else is zero |
| ConfigValues.PrecisionIs | external/easylogging++/easylogging++.cc:1338-1360 | the last 32 bits of the number are the width if they are one to six, and else it is three, with the offset of that width |
| ConfigValues.OneMeaning | external/easylogging++/easylogging++.cc:1606-1671 | every text has one such meaning only |
| ConfigValues.DecimalIsRead | external/easylogging++/easylogging++.cc:1658-1671 | a number in decimal is read back up to the largest long |
| ConfigValues.WidthIsRead | external/easylogging++/easylogging++.cc:1338-1360 | a width is read back if and only if it is one to six; larger numbers are taken for a width or for three by their last 32 bits |
| ConfigParser.IgnoreCommentsInPlace | external/easylogging++/easylogging++.cc:384-401 | the line up to its comment, where a ## inside the first quoted part is none |
| ConfigParser.StripQuotes | external/easylogging++/easylogging++.cc:449-468 | the trimmed text without its quotes, as the loop that erases backslashes and the substr behind it leave it; ValueIsTaken says what that is for a value with escaped quotes |
| EscapedValues.ValueIsTaken | external/easylogging++/easylogging++.cc:449-468 | for any number of escaped quotes and any texts between them: which backslashes are erased, and whether the quotes around the value go |
| EscapedValues.EscapedQuotesExactly | external/easylogging++/easylogging++.cc:449-468 | a value is taken as it is meant if and only if it is not empty and has no escaped quote, or at least two characters follow its last escaped quote and at least one stands between any two escaped quotes |
| EscapedValues.SecondEscapeStays | external/easylogging++/easylogging++.cc:449-468 | two escaped quotes in a row, of which the second keeps its backslash |
| ConfigParser.ParseLineInto | external/easylogging++/easylogging++.cc:419-477 | the result, the level in force and the one call of set that a line makes |
| ConfigParser.ParseFromText | external/easylogging++/easylogging++.cc:368-382 | the base first, then the calls of all lines in order; the result is that of the last line |
| ConfigParser.LineEffect | external/easylogging++/easylogging++.cc:384-477 | what every line of a document does (header, setting with or without quotes, comment, blank; padded and commented): what it is written for, except that a quoted part in the comment of a line without quotes is taken for text of the line |
| ConfigParser.HeaderExactly | external/easylogging++/easylogging++.cc:384-401 | a header means what it says if and only if its comment has no closing quote |
| ConfigParser.QuotedCommentLosesLevel | external/easylogging++/easylogging++.cc:384-447 | a header that loses its level, for one |
| ConfigParser.BareExactly | external/easylogging++/easylogging++.cc:384-477 | a setting without quotes means what it says if and only if its comment has no closing quote |
| ConfigParser.GetLinesOfDoc | external/easylogging++/easylogging++.cc:376-380 | the lines of a printed document are its lines |
| ConfigParser.ParseTakes | external/easylogging++/easylogging++.cc:368-477 | for every document, the calls and the result are those of its lines in order, each as LineEffect says |
| ConfigParser.ParseUndoesPrint | external/easylogging++/easylogging++.cc:368-477 | a document in which no header and no setting without quotes has a quoted part in its comment makes exactly the calls it lists, in order, with the exact levels, types and values |
| ConfigNames.LevelNames | external/easylogging++/easylogging++.cc:67-84 | a text is taken for a level if and only if it is the name of that level, in any case |
| ConfigNames.TypeNames | external/easylogging++/easylogging++.cc:119-158 | so for the types of configurations, of which the precision has two names |
| ConfiguredLogger.DocumentDecides | external/easylogging++/easylogging++.cc:368-382 | end to end, for the six types with values per level: after the defaults and a document, the typed value of a level is the one the document says last for it or for Global, else the default |
| ConfiguredLogger.DocumentDecidesGlobal | external/easylogging++/easylogging++.cc:368-382 | for the two types stored under Global only, it is what the document says last of Info or Global, for every level |
| ConfiguredLogger.ViewIsConfigured | external/easylogging++/easylogging++.cc:1604-1643 | so every map that build makes gives what the document says, as Boolean, number, precision or format in the sense of ConfigValues |
| ConfiguredLogger.Configure | external/easylogging++/easylogging++.cc:297-382 | setToDefault, parseFromText and build one after the other: the maps are built from the calls of the text, and for a document every value is what the document means |
| ConfiguredLogger.ConfigureDefaults | external/easylogging++/easylogging++.cc:297-323 | with no text: every level is enabled, goes to the file and the screen, has three places, is tracked, has no limits and its own default format |
| ConfiguredLogger.FormatIs | external/easylogging++/easylogging++.cc:314-322 | the default format of each level |
| FormatScan.ReplaceFirstWithEscape | external/easylogging++/easylogging++.cc:869-881 | for any text to look for, the search step by step; for a specifier, its escapes lose their % up to its first unescaped occurrence, which is replaced, and the rest stays |
| FormatScan.SubstitutedIsEdit | external/easylogging++/easylogging++.cc:869-881 | the search by index and one pass over the text are the same for every specifier |
| FormatScan.SubstitutedFirst | external/easylogging++/easylogging++.cc:869-881 | whatever is looked for, a text without it stays, and its first occurrence is replaced in place where no % stands before it |
| FormatScan.ConditionalAddFlag | external/easylogging++/easylogging++.cc:1425-1439 | the flag is set if and only if there is an unescaped occurrence, and escapes behind it lose their % |
| FormatScan.CompileThenReplace | external/easylogging++/easylogging++.cc:1425-1439 | for every format and specifier, compiling and then substituting drops all its escapes, replaces its first unescaped occurrence only and keeps the rest verbatim |
| FormatSpecifiers.OneAtFront | external/easylogging++/easylogging++.h:728-742 | no two specifiers start the same text |
| FormatSpecifiers.PassesExactly | external/easylogging++/easylogging++.cc:869-881 | a substitution leaves a text in front of another alone, whatever the value, if and only if no occurrence, escaped or not, starts in it |
| FormatSpecifiers.PassesLoose | external/easylogging++/easylogging++.cc:869-881 | a % in front of anything but a small letter or another % does no harm |
| FormatSpecifiers.FlaggedIsUnescaped | external/easylogging++/easylogging++.cc:1425-1439 | the scan finds an unescaped occurrence if and only if one exists |
| FormatSpecifiers.CompileKeepsFlag | external/easylogging++/easylogging++.cc:1440-1453 | for every format, compiling one specifier does not change whether another has an unescaped occurrence |
| FormatPipeline.StepImage | external/easylogging++/easylogging++.cc:869-881 | one in-place edit of the whole string is that edit on each token, where no other token starts an occurrence |
| FormatPipeline.RunImage | external/easylogging++/easylogging++.cc:1425-1453 | a run of edits equals one pass over the tokens, where that holds at each edit |
| FormatPipeline.CutImage | external/easylogging++/easylogging++.cc:1455-1494 | taking the date format out of the string takes one token out |
| LogLine.CompilesKeepFlag | external/easylogging++/easylogging++.cc:1440-1453 | compiling any other specifiers, in any order, does not change a flag |
| LogLine.FindUnescaped | external/easylogging++/easylogging++.cc:1455-1460 | the first occurrence that is not escaped, if there is one |
| LogLine.ExtractDate | external/easylogging++/easylogging++.cc:1455-1494 | cuts the braces behind the first unescaped %datetime and returns what stood in them, or the default |
| LogLine.TakeBraces | external/easylogging++/easylogging++.cc:1469-1494 | the text up to the first closing brace, and what follows |
| LogLine.RunSlots | external/easylogging++/easylogging++.cc:1496-1543 | the substitutions that are switched on, in order |
| LogLine.CompileFormat | external/easylogging++/easylogging++.cc:1419-1543 | flags, date format and compiled format of a user format; the flags are those of the format as the user wrote it |
| LogLine.BuildLine | external/easylogging++/easylogging++.cc:2373-2448 | the line for a message: the substitutions that are switched on, then the custom specifiers in the order of their registration; LineShows says what is substituted for each |
| LogLine.WriteLine | external/easylogging++/easylogging++.cc:2373-2448 | from the user format to the line |
| LogLine.LineMeaning | external/easylogging++/easylogging++.cc:1419-1543 | some thirty in-place edits equal one pass over the format, whenever each edit finds its specifier in its own tokens only: the first unescaped occurrence of each specifier that is substituted becomes its value, its escapes lose a % where compiling or substituting takes it, the date braces go, the rest is verbatim |
| LogLine.PlainLineIsClear | external/easylogging++/easylogging++.cc:1419-1543 | that is so for every message and every format and other values in which each % belongs to a specifier, an escape or date braces |
| LogLine.ValueInPlace | external/easylogging++/easylogging++.cc:869-881 | substituting changes nothing around its place, whatever the value contains |
| LogLine.MessageIsVerbatim | external/easylogging++/easylogging++.cc:2373-2448 | two messages give lines with the same text before and behind the verbatim message, whatever it contains |
| LogLine.PercentAtEndOfValue | external/easylogging++/easylogging++.cc:869-881 | where that fails: a value ending in % in front of another specifier suppresses it |
| LineValues.LineShows | external/easylogging++/easylogging++.cc:2373-2436 | for all values and any plain text around it: what %app, %thread, %datetime, %func, %file, %fbase, %line, %loc, %logger and %msg show, each its own |
| LineValues.LevelShows | external/easylogging++/easylogging++.cc:1496-1533 | %level and %levshort show the level of the format, and stay in a format of no level |
| LineValues.LevelValuesAreNames | external/easylogging++/easylogging++.h:713-726 | what they show is the beginning of the name of the level, padded with a blank, and its first letter |
| LineValues.VerboseLevelShows | external/easylogging++/easylogging++.cc:2428-2433 | %vlevel shows the verbose level for verbose messages and stays otherwise |
| LineValues.NamesShow | external/easylogging++/easylogging++.cc:1534-1541 | %user and %host show the user and the host, with the specifier of the logger in them substituted in turn; as they are where they have none |
| LineValues.DateFormatIs | external/easylogging++/easylogging++.cc:1469-1494 | the date format is what stands in braces right behind %datetime, or the usual one |
| DateTime.ParseFormat | external/easylogging++/easylogging++.cc:1186-1248 | a buffer of any size receives exactly the start of the unbounded rendering, cut at its end; DateIsReadBack and the rows behind it say what the rendering is |
| DateTime.AddField | external/easylogging++/easylogging++.cc:1191-1242 | one conversion appends the text of its field, cut at the end of the buffer |
| DateTime.AddToBuff | external/easylogging++/easylogging++.cc:942-946 | appends a string, cut at the end of the buffer |
| DateTime.ConvertAndAddToBuff | external/easylogging++/easylogging++.cc:927-940 | appends the digits of a number, cut at the end of the buffer |
| DateTime.LocalDigits | external/easylogging++/easylogging++.cc:927-940 | the digits left in the local buffer, written from its end |
| DateTime.PaddedField | external/easylogging++/easylogging++.cc:927-940 | a padded field of one to eight places is w digits with value n modulo 10^w |
| DateTime.PlainField | external/easylogging++/easylogging++.cc:927-940 | an unpadded number that fits is its decimal without leading zeros |
| DateTime.DateIsReadBack | external/easylogging++/easylogging++.cc:1186-1248 | the usual date and time has year, month, day, hour, minute and second at their places, as numbers |
| DateTime.FieldsRead | external/easylogging++/easylogging++.cc:1198-1232 | every numeric conversion, as a number of so many places |
| DateTime.HalfDay | external/easylogging++/easylogging++.cc:1221-1240 | the hour of twelve and AM or PM give back the hour |
| DateTime.SubsecondReads | external/easylogging++/easylogging++.cc:1233-1236 | the part of a second in as many places as the precision has |
| DateTime.NamesRendered | external/easylogging++/easylogging++.cc:1201-1214 | the names of days and months, and the short ones as their first three letters |
| DateTime.DaysCount | external/easylogging++/easylogging++.h:745-746 | days are counted from Sunday |
| DateTime.MonthsCount | external/easylogging++/easylogging++.h:747-750 | months are counted from January |
| DateTime.PlainText | external/easylogging++/easylogging++.cc:1189-1246 | plain text comes through as it is |
| DateTime.OneConversion | external/easylogging++/easylogging++.cc:1190-1197 | a doubled % is one, and a conversion stands for its field |
| HitCounters.HitRegistry.ValidateEveryN | external/easylogging++/easylogging++.cc:1778-1787 | the counter of the location after the reset and the increment, and whether it is a multiple of n; other counters unchanged |
| HitCounters.HitRegistry.ValidateAfterN | external/easylogging++/easylogging++.cc:1791-1804 | true once the counter has reached n, and the counter stops there |
| HitCounters.HitRegistry.ValidateNTimes | external/easylogging++/easylogging++.cc:1808-1819 | true while the counter, which wraps at 2^64, is at most n |
| HitCounters.HitRegistry.GetOrRegister | external/easylogging++/easylogging++.cc:1780-1783 | the first counter of the location, or a new one behind the others |
| HitCounters.NTimesFollows | external/easylogging++/easylogging++.cc:1808-1819 | in any interleaving the counter of such a location is the number of its calls modulo 2^64 |
| HitCounters.AfterNFollows | external/easylogging++/easylogging++.cc:1791-1804 | in any interleaving the counter of such a location is the number of its calls, up to n |
| HitCounters.CounterFollows | external/easylogging++/easylogging++.h:2128-2133 | for n up to 100000 the counter stays within 1 and 100000 and keeps the remainder of the number of calls |
| HitCounters.CounterSticks | external/easylogging++/easylogging++.h:2128-2133 | for larger n the counter sticks at 100001 |
| HitCounters.EveryNthExactly | external/easylogging++/easylogging++.h:2128-2133 | a location fires on exactly every n-th call, for ever, if and only if n is at most 100000 |
| HitCounters.CountersAreIndependent | external/easylogging++/easylogging++.cc:1778-1787 | calls at other locations, of any kind, do not matter |
| HitCounters.RunFiresEveryNth | external/easylogging++/easylogging++.cc:1778-1787 | in any interleaving, the call that makes k calls at a location fires if and only if n divides k |
| WriterProtocol.StepKeepsBalance | external/easylogging++/easylogging++.cc:2512-2619 | every step of every writer keeps: a lock is held as often as writers hold it, by their thread, and a free lock has an empty stream |
| WriterProtocol.ReleaseIsOwn | external/easylogging++/easylogging++.cc:2574-2607 | only a lock that is held, by the thread that took it, is released, and once |
| WriterProtocol.LocksAreBalanced | external/easylogging++/easylogging++.cc:2512-2619 | over any run of any number of threads: a writer holds at most one lock, a finished one has gone through all its ids and released each lock it took, free streams are empty, and all locks are free once all are finished |
| WriterProtocol.StepKeepsRecords | external/easylogging++/easylogging++.cc:2558-2587 | every step keeps that each logger which took a statement gets it once |
| WriterProtocol.EachLoggerOnce | external/easylogging++/easylogging++.cc:2558-2619 | the records of a finished statement are one for each logger that the machine says took it, in order; EachTakerOnce says which those are |
| WriterProtocol.StepKeepsTexts | external/easylogging++/easylogging++.cc:2558-2619 | every step that finds an empty stream when it takes a lock keeps, for every statement, what the stream and the records owe to the text streamed into it |
| WriterProtocol.AllRecordsCarryTheText | external/easylogging++/easylogging++.cc:2558-2619 | all records of a statement carry the text that the machine says was streamed into it, none if its first logger did not take it, over any run in which no thread takes a lock again with text in the stream; RecordsSayIt says which text that is |
| WriterProtocol.UnnestedRecordsCarryTheText | external/easylogging++/easylogging++.cc:2558-2619 | the same over any run in which no thread logs while it holds a lock |
| WriterProtocol.DisturbedRecordIsWrong | external/easylogging++/easylogging++.cc:2558-2619 | conversely, a statement that takes a lock with text in its stream and is brought to its end is recorded with that text in front of its own |
| WriterProtocol.OuterTextIsLost | external/easylogging++/easylogging++.cc:2574-2607 | and the statement around it: once another of its thread has released the same lock, taken by it or not, the record its logger gets is shorter than its text, whatever happens then |
| WriterProtocol.DisturbanceIsReached | external/easylogging++/easylogging++.cc:2512-2556 | and a run that leads there, for any text |
| WriterProtocol.FlatIsUndisturbed | external/easylogging++/easylogging++.cc:2530-2556 | without statements inside statements no lock is taken twice |
| WriterProtocol.StepKeepsLibrary | external/easylogging++/easylogging++.cc:2453-2512 | the lock of the library is held as often as writers dispatch, by their thread |
| WriterHistory.AllHappened | external/easylogging++/easylogging++.cc:2512-2619 | over any run, what the machine says of its statements is what the events say: who started them with which ids, which loggers took them, and the texts streamed into them one after the other |
| WriterHistory.StepHappens | external/easylogging++/easylogging++.cc:2512-2619 | every step keeps that |
| WriterHistory.StreamIsTold | external/easylogging++/easylogging++.h:3268-3288 | one more text is added behind all earlier ones if and only if the first logger took the statement |
| WriterHistory.EachTakerOnce | external/easylogging++/easylogging++.cc:2558-2619 | over any run, the records of a finished statement are one for each of its ids that was found and whose logger was enabled, in the order of the ids |
| WriterHistory.RecordsSayIt | external/easylogging++/easylogging++.cc:2558-2619 | over any run in which no lock is taken with text in its stream, every record of a statement is the concatenation of all texts streamed into it, or nothing when its first logger did not take it |
| WriterHistory.UnnestedRecordsSayIt | external/easylogging++/easylogging++.cc:2558-2619 | so it is over any run in which no thread starts a statement while it holds a lock |
| LockOrder.StepKeepsOrder | external/easylogging++/easylogging++.cc:2530-2556 | every step keeps: what a waiting writer waits for, its thread holds already, or it holds only what may be held meanwhile and does not dispatch |
| LockOrder.SomeWriterMoves | external/easylogging++/easylogging++.cc:2453-2619 | no deadlock over the locks of the loggers and of the library: over any run in which threads that hold loggers wait only for others of higher rank, and for none while they dispatch, some unfinished writer can always take its next step |
| LockOrder.NestingExactly | external/easylogging++/easylogging++.cc:2453-2619 | for any set of pairs of a logger that is held and another that is logged to meanwhile: no run within it comes to a stop if and only if the loggers can be ranked so that every pair goes up |
| LockOrder.RankOrCycle | external/easylogging++/easylogging++.cc:2530-2556 | such a set has a ranking or a cycle |
| LockOrder.CrossedIsReached | external/easylogging++/easylogging++.cc:2530-2556 | from the start, a run of as many threads as a cycle has loggers, in which each comes to wait for the next |
| LockOrder.CrossedIsStuck | external/easylogging++/easylogging++.cc:2530-2556 | there no writer can move |
| LockOrder.BothOrdersBlock | external/easylogging++/easylogging++.cc:2530-2556 | so any two loggers, each logged to while the other is held, can block |
| LockOrder.UnnestedWritersMove | external/easylogging++/easylogging++.cc:2453-2619 | runs without statements inside statements never come to a stop |
| LockOrder.DispatchingBlocks | external/easylogging++/easylogging++.cc:2453-2556 | why a thread must not wait while it dispatches: for any two loggers, a run in which one thread does, from the start |
| LockOrder.EntangledIsStuck | external/easylogging++/easylogging++.cc:2453-2556 | and there no writer can move, whatever the order of the loggers |
| IgdDescription.IgdDatas.constructor | external/miniupnpc/miniupnpc.c:608 | everything zero |
| IgdDescription.IgdDatas.OnStart | external/miniupnpc/igd_desc_parse.c:15-29 | the element name clipped and terminated, the depth, and for a service the four strings emptied |
| IgdDescription.IgdDatas.OnEnd | external/miniupnpc/igd_desc_parse.c:36-60 | the depth, and where the service is filed |
| IgdDescription.IgdDatas.OnData | external/miniupnpc/igd_desc_parse.c:64-91 | the text clipped and terminated in the member named by the element |
| IgdDescription.Parse | external/miniupnpc/igd_desc_parse.c:15-91 | all events in turn: the struct is safe and faithful to them |
| IgdDescription.RunIsSafe | external/miniupnpc/igd_desc_parse.c:15-91 | on any events whatever, every string ends within its 128 bytes |
| IgdDescription.RunIsFaithful | external/miniupnpc/igd_desc_parse.c:15-91 | on any events whatever, nested or not: each service closed is filed by its type with the texts read since it was opened; first is the first connection, second the last later one, CIF and IPv6FC the last of their kind |
| IgdDescription.KindOfBuffer | external/miniupnpc/igd_desc_parse.c:31-52 | comparing raw bytes with a prefix decides as comparing the C string |
| IgdDescription.KindsByName | external/miniupnpc/igd_desc_parse.c:43-52 | the kind of a service by the full name of its type, whatever the version |
| IgdDescription.FiledByName | external/miniupnpc/igd_desc_parse.c:41-57 | a service that is closed goes to CIF, IPv6FC, first or second by that name |
| IgdDescription.NothingLeaks | external/miniupnpc/igd_desc_parse.c:23-28 | what a service holds does not depend on anything before it was opened |
| IgdDescription.FirstConnectionStays | external/miniupnpc/igd_desc_parse.c:49-57 | once there is a first connection, no later event changes it |
| MiniXml.XmlParser.ParseXml | external/miniupnpc/minixml.c:110-228 | for any text, well formed or not, the loop reports what the functional reading of the text does, and ends |
| MiniXml.XmlParser.SkipComment | external/miniupnpc/minixml.c:116-128 | behind a comment, or the end of the text |
| MiniXml.XmlParser.ReadTag | external/miniupnpc/minixml.c:129-212 | a tag: what it begins or ends |
| MiniXml.XmlParser.ReadName | external/miniupnpc/minixml.c:131-145 | the name of an element without its prefix |
| MiniXml.XmlParser.ReadStart | external/miniupnpc/minixml.c:146-196 | the beginning of an element is reported, then the text that follows it |
| MiniXml.XmlParser.ParseAtt | external/miniupnpc/minixml.c:39-106 | the end of a tag, behind its attributes |
| MiniXml.XmlParser.ReadAttribute | external/miniupnpc/minixml.c:49-101 | one attribute, quoted or not |
| MiniXml.XmlParser.ReadContent | external/miniupnpc/minixml.c:153-196 | text in front of an end tag is reported with the white space before it, other text is not |
| MiniXml.XmlParser.ReadRaw | external/miniupnpc/minixml.c:164-183 | the text of a CDATA section |
| MiniXml.XmlParser.ReadEnd | external/miniupnpc/minixml.c:198-212 | the end of an element |
| MiniXml.XmlParser.SkipTo | external/miniupnpc/minixml.c:54-95 | the inner loops stop at the first character they look for, or at the end of the text |
| XmlTrees.NodeRead | external/miniupnpc/minixml.c:110-228 | a written element, with attributes, a prefix, text, CDATA, comments and elements to any depth, is reported by its own events, whatever follows it |
| XmlTrees.DocumentRead | external/miniupnpc/minixml.c:110-228 | a written document is reported node by node; an element in one tag has no end, and the name at an end keeps its prefix |
| XmlTrees.BareSwallows | external/miniupnpc/minixml.c:86-103 | an attribute value without quotes takes the character behind it along, also where that ends the tag |
| DeviceXml.NodeAdds | external/miniupnpc/igd_desc_parse.c:15-91 | inside a service, at any depth, each text goes to the member its element names, and the last one counts |
| DeviceXml.NodeServices | external/miniupnpc/igd_desc_parse.c:15-60 | the services of any tree without a service inside a service are closed one for one, in order, each with its own texts; one with a prefix or in one tag is not |
| DeviceXml.DocumentIsReadBack | external/miniupnpc/miniupnpc.c:95-110 | end to end: from the XML text of a document to the services and URLs in the struct |
| DeviceXml.ParseRootDesc | external/miniupnpc/miniupnpc.c:95-110 | for any text the struct is safe and faithful to what the parser reports, and for a written document it holds what that says |
| ChunkedReader.ChunkReader.Feed | external/miniupnpc/miniwget.c:234-307 | for any piece, well formed or not, the loop does what the functional reading of the piece does |
| ChunkedReader.ChunkReader.ReadSizeLine | external/miniupnpc/miniwget.c:240-256 | digits kept, rest skipped, and whether the size line ended in this piece |
| ChunkedReader.ChunkReader.TakeDigits | external/miniupnpc/miniwget.c:245-251 | digits are copied while there are some and there is room |
| ChunkedReader.ChunkReader.SizeOf | external/miniupnpc/miniwget.c:257-263 | the value of the digits in 32 bits |
| ChunkedReader.ChunkReader.CopyData | external/miniupnpc/miniwget.c:284-306 | as many bytes as the piece has of the chunk |
| ChunkedReader.ChunkReader.ReadSize | external/miniupnpc/miniwget.c:237-282 | the size once its line ended; zero ends the body |
| ChunkedReader.Receive | external/miniupnpc/miniwget.c:112-307 | the pieces one after the other, up to the end of the body |
| ChunkedReader.NoOverflow | external/miniupnpc/miniwget.c:257-263 | a size that fits in 32 bits is read exactly |
| ChunkedReader.HexDigits | external/miniupnpc/miniwget.c:245-262 | which characters are digits, and their values in either case |
| ChunkedBody.PieceLeads | external/miniupnpc/miniwget.c:234-307 | from any place in a well-formed body, any piece of what remains leads to the place behind it |
| ChunkedBody.AnyCutIsReassembled | external/miniupnpc/miniwget.c:232-308 | for every well-formed chunked body (section 4.1 of RFC 7230), of which the size lines are as SizeLineExactly says, and every way to cut it into pieces, the client ends with exactly the data of the chunks |
| ChunkSizes.SizeLineExactly | external/miniupnpc/miniwget.c:245-263 | for any number of digits: every cut of a size line gives its size if and only if the extension is harmless, or there are exactly 31 digits, or more for a size of zero |
| ChunkSizes.SafeExactly | external/miniupnpc/miniwget.c:245-263 | for fewer than 31 digits: if and only if each hexadecimal digit in the extension is the one that a size of eight equal digits repeats, or is shifted out by eight others behind it that still fit |
| ChunkSizes.HarmlessIsSafe | external/miniupnpc/miniwget.c:245-263 | one direction, for up to 31 digits |
| ChunkSizes.DigitIsHarmless | external/miniupnpc/miniwget.c:245-263 | the other, digit by digit: a cut that shows any other digit in the size |
| ChunkSizes.LongLine | external/miniupnpc/miniwget.c:246 | of more than 31 digits the first 31 are kept, however the line is cut |
| ChunkSizes.LongLineExactly | external/miniupnpc/miniwget.c:246 | so such a size is read right if and only if it is zero |
| ChunkedExtensions.ContentIsLost | external/miniupnpc/miniwget.c:234-307 | a body cut in an extension in front of digits that make the size larger than what follows: its end is not seen and its content is wrong |
| ChunkedExtensions.ContentCanBeLost | external/miniupnpc/miniwget.c:245-263 | a body of three bytes and two pieces of it with which that happens |
| ChunkedServer.BuildContent | external/miniupnpc/minihttptestserver.c:53-77 | the text of the asked length, character by character |
| ChunkedServer.LineIsWhole | external/miniupnpc/minihttptestserver.c:60-65 | a line is 64 bytes and whole if and only if its number is below 10000 |
| ChunkedServer.NumbersOfLine | external/miniupnpc/minihttptestserver.c:60-65 | both numbers of a whole line have its own number as value, and stand at its ends |
| ChunkedServer.TextIsPrefix | external/miniupnpc/minihttptestserver.c:53-77 | a shorter text is the beginning of a longer one |
| ChunkedServer.BuildChunkedResponse | external/miniupnpc/minihttptestserver.c:101-153 | the allocated buffer holds the header and the chunked text, and no write leaves it, if and only if the response is no longer than the buffer |
| ChunkedServer.PutChunks | external/miniupnpc/minihttptestserver.c:128-143 | the loop: what has been written, and that it stops at the first write outside the buffer |
| ChunkedServer.PutChunk | external/miniupnpc/minihttptestserver.c:135-142 | one chunk: its length, and that it is written inside the buffer if and only if it fits |
| ChunkedServer.PrintInto | external/miniupnpc/minihttptestserver.c:113-137 | snprintf: as much as fits in front of its NUL, and the length of the whole text |
| ChunkedServer.Put | external/miniupnpc/minihttptestserver.c:138-146 | an unchecked copy: inside the buffer if and only if it fits |
| ChunkedServer.ChunkedLength | external/miniupnpc/minihttptestserver.c:128-147 | the length of the chunked text: the content, a size and two line breaks for each chunk, and five bytes |
| ChunkedServer.ResponseLength | external/miniupnpc/minihttptestserver.c:109-147 | the length of the response, and that it fits if and only if the sizes and line breaks take at most 178 bytes and a sixteenth of the content |
| ChunkedServer.SmallestChunksOverrun | external/miniupnpc/minihttptestserver.c:109-143 | with chunks of one byte it fits up to 36 bytes of content and never beyond |
| ChunkedServer.ChunksAreComplete | external/miniupnpc/minihttptestserver.c:127-147 | the chunks are well formed and hold the content |
| ChunkedServer.ChunkedTextIsReassembled | external/miniupnpc/miniwget.c:232-308 | a chunked text comes back as its content, whatever the chunk sizes and however it arrives |
| ChunkedServer.ClientGetsTheText | external/miniupnpc/minihttptestserver.c:101-153 | for all chunk sizes with which the response fits its buffer, and however the body arrives, the client gets exactly the text |

## Left out

- The coin's own code: in this repository it is constants and abstract interfaces.
- Files, sockets, clocks, signals, crash handling, stack traces, command-line arguments, colours, performance tracking and asynchronous logging.
- Log files of the typed configurations (the file name and file stream maps, insertFile, file rolling, and the ToFile value switched off on an error), setRemainingToDefault and parseFromFile.
- What the flush thresholds do to a file, and VRegistry::allowed for modules.
- Assertion messages and internal log lines of the library.
- Strings are sequences of characters without NUL, except where a buffer is modelled.
- CodeLength.DecodeLength: the caller vouches that the loop stops within the bytes given, as the macro has no limit of its own.
- CodeLength.DecodeLengthRead: the same, for the bytes that can be drawn.
- FormatScan.ConditionalAddFlag: says nothing for texts that are not `%` and at least two other characters, as all specifiers are.
- LogLine.LineMeaning: the condition is about the format and the values at each edit; PlainLineIsClear gives one that can be read off them, and PassesExactly the converse for one edit. WriteLine has no custom specifiers.
- LogLine.ExtractDate: stops when every %datetime is escaped, where the source would read out of range.
- LogLine.CompileFormat: resolveLoggerFormatSpec is one substitution per format.
- ConfigParser.ParseUndoesPrint: values with escaped quotes, comments in front of a quoted value and empty values are not in documents; EscapedQuotesExactly, ParseLineInto and ParseFromText cover them.
- ConfigParser.StripQuotes: a value that is one quote or empty is as the code leaves it; the assertions about it are dropped.
- TypedConfigurations.TypedView.constructor: atol is taken to stop at the largest 64-bit long, and a log format is its level and text.
- TypedConfigurations.GlobalOnlyValueIsInfo: for calls with known levels.
- DateTime.ParseFormat: the time is in range, as localtime gives it; formatTime is not modelled.
- WriterProtocol.LocksAreBalanced: the abort on a fatal statement, the library's lock taken for a moment when a logger is not registered, and statements whose caller owns the lock are not modelled; without multi-logger support a statement has one id, and that setting does not change while it runs.
- LockOrder.SomeWriterMoves: a thread of the model may start a statement at any time, also while it waits; the library's lock taken for a moment when a logger is not registered is not modelled.
- WriterProtocol.AllRecordsCarryTheText: the condition is about the run; UnnestedRecordsSayIt has one that a caller can see to.
- WriterProtocol.DisturbedRecordIsWrong: for a statement that is enabled, not silent and finished without another in between, while no other thread dispatches.
- MiniXml.XmlParser.ParseXml: a read right behind the end of the text sees a NUL, and attributes are not reported, as parserootdesc asks for none.
- XmlTrees.DocumentRead: a document has no DOCTYPE and no text in front of a CDATA section, and white space follows an attribute value without quotes; ParseXml covers the others, and BareSwallows says what happens without that white space.
- DeviceXml.DocumentIsReadBack: for services that are not inside services; RunIsFaithful says what happens to others.
- ChunkedBody.AnyCutIsReassembled: the header of the response, content-length bodies and memory limits are not modelled.
- ChunkedServer.BuildChunkedResponse: lengths are not negative and do not overflow an int, both allocations succeed, and a write outside the buffer ends the model.
