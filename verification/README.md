# eix: a verified model

This project models the core of eix, the search tool for Gentoo's package
tree, in Dafny, and proves properties of that model. It covers five parts.

1. **The package index** (`NumberCodec`, `StringTable`, `IndexFormat`,
   `IndexRoundTrip`, `IndexHeader`, `IndexDatabase`, `IndexWriter`,
   `IndexReader`, `PackageCursor`, `LazyReader`, `IndexSample`). A file is a text of bytes
   with a position. The writer runs first over the tree to fill the word
   tables, then in its counting mode to learn lengths, then for real; the
   reader decodes packages in part and seeks behind them. `IndexFormat` says
   what a file means, position by position; the classes `Database`, `DBHeader`,
   `StringHash` and `PackageReader` have the fields of the program and are
   proved against it. The results: what is written is read back, for every
   tree, by every run of the lazy reader, and nothing is ever looked up in
   vain. `IndexSample` fixes the bytes of one small index.
2. **Versions and packages** (`Versions`, `PackageManagerSpec`,
   `VersionParser`, `VersionTexts`, `Packages`). The comparison loop is a total preorder, and
   agrees with the staged algorithm of section 3.3 of the Gentoo Package
   Manager Specification up to one exactly described exception, from the texts
   on (`VersionTexts`). The parser and
   the printer undo each other. Insertion into a version list keeps it sorted
   and keeps the mark for duplicates right.
3. **Configuration** (`DelayedSyntax`, `DelayedTemplates`, `DelayedValues`,
   `DelayedResolver`, `DelayedJoins`, `DelayedTrees`, `DelayedLaws`;
   `VarsLanguage`, `VarsReader`, `VarsDump`, `DumpRoundTrip`, `VarsLaws`,
   `PortageLaws`). The resolver of delayed references, which edits the values in
   place and remembers what it has resolved, computes what a pure evaluator
   computes, in whatever order the keys are asked for. The machine that reads
   files of assignments stops on every text and comes to the meaning of that
   text; the dump of all options, read by it, assigns the dumped values. The
   laws say what templates and scripts mean as they are written.
4. **Output formats** (`FormatParsing`, `FormatOverrun`, `FormatRoundTrip`,
   `FormatPrinting`, `FormatLaws`). The machine with its explicit stack rebuilds
   the nodes it is given in written form; a scan of the text says exactly when
   the machine looks behind its end; the laws go from the text of a condition or
   an assignment to what is printed.
5. **Differences and fields** (`MergeDiff`, `Dependencies`, `Strings`). The
   loop of eix-diff over two sorted streams is a set difference; the dependency
   fields survive being folded into each other and stored; splitting undoes
   escaping.

Code that changes state in place is a class or a method with a loop, proved
against a function; the lemmas are about those functions. Where the code does
not do what it is meant to do, the model follows the code: there is a lemma
with the input that shows it, and one with the exact condition under which the
code is right. These are the findings:

- garbage of different length compares equal, so versions with garbage are not
  ordered (`VersionParser.TextsWithoutOrder`, with `Versions.OrderBreaksExactly` and
  `VersionParser.OrderOfTextsBreaksExactly` as the exact condition);
- `-r0` is strictly above no revision, where the specification says that they are
  equal (`PackageManagerSpec.FlatAgreesWithSpecification`, `ZeroRevisionIsAbove`);
- `compareTilde` has the wrong sign for prereleases (`VersionParser.TildeSignDiffers`,
  with `Versions.TildeSignExactly` as the exact condition);
- of two equal versions one can match as a cut version where the other does not
  (`VersionParser.EqualButNoFront`, with `Versions.FrontOfFrontExactly` as the exact
  condition);
- a malformed version loses a dot when it is printed (`VersionParser.MalformedLosesDot`,
  with `VersionParser.PrintsBackExactly` as the exact condition);
- a dependency field that holds the quote character is shown as something else
  (`Dependencies.QuoteIsSubstituted`, with `Dependencies.ShownIsSetExactly` as the
  exact condition);
- a dependency field of white space alone can be folded into another field, and
  what comes back from the file then differs (`Dependencies.WhiteSpaceFold`, with
  `Dependencies.FoldThroughFile` and `FieldsThroughFile` as the exact conditions);
- a tag that tests for emptiness does not nest in other conditions
  (`DelayedTrees.EmptinessTestDoesNotNest`, with `ScanIsRightExactly` as the exact
  condition);
- a reference that is only tested for emptiness is not fetched, so the test can
  take a value for empty (`DelayedJoins.TestedKeyIsMissed`, with
  `DelayedJoins.JoinedIsEnough` and `EmptinessSeesValue` as the conditions);
- the parser of formats looks behind the end of a text that ends in a lone backslash
  or in an open colour of a right hand side (`FormatOverrun.LoneBackslash`,
  `LoneParenthesis`, with `FormatOverrun.OverrunExactly` as the exact condition);
- a dumped option whose key starts with `s`, a digit or `-` is not read back
  (`DumpRoundTrip.AssignmentRead`, `DumpIsComplete`).

Where a comment of the program and its code disagree (the header of the reader
of assignments says that its keys are `[A-Z_]`, its code also takes small
letters, digits and `-`), the model follows the code.

Each file holds one module. `dafny verify dfyconfig.toml` checks the project.

## Model

| member | source | states |
|---|---|---|
| NumberCodec.NumRoundTrip | src/database/io.h:192-308 | a number that stands anywhere in a file is read back, and the position is then behind it |
| NumberCodec.NumUnambiguous | src/database/io.h:192-308 | no two numbers can stand at the same position: the code is prefix free |
| NumberCodec.NumLengthMonotone | src/database/io.h:231-308 | greater numbers never take fewer bytes |
| IndexSample.NumbersAreStored | src/database/io.h:231-308 | the bytes of every number, from its digits: as many escape bytes as there are digits behind the first, and a first digit 0xFF as one more and a zero |
| NumberCodec.MaskCovers | src/database/io.h:231-262 | the loop that widens the mask stops exactly at the number of low digits |
| NumberCodec.LongRoundTrip | src/database/io.h:200-229 | a number with low digits is read back through its escape bytes |
| NumberCodec.ShortRoundTrip | src/database/io.h:192-199 | a number of one byte is read back, the escape byte itself included |
| StringTable.StringHash.HashString | src/eixTk/stringutils.cc:602-618 | only an open table takes words; each is remembered as one more occurrence |
| StringTable.StringHash.HashWords | src/eixTk/stringutils.cc:626-630 | all words of a list are counted, in order, or none |
| StringTable.StringHash.StoreString | src/eixTk/stringutils.cc:594-600 | a table that is being read keeps the words in the order of the file |
| StringTable.StringHash.Finalize | src/eixTk/stringutils.cc:683-703 | the table then holds each hashed word once, the frequent ones first, and looks up each at its place |
| StringTable.StringHash.GetIndex | src/eixTk/stringutils.cc:632-643 | the index is the place of the word; a word that was not hashed has none |
| StringTable.StringHash.At | src/eixTk/stringutils.cc:645-651 | an index that is no place of the table fails |
| StringTable.MakeVector | src/eixTk/stringutils.cc:695-695 | the keys of the map, each once |
| StringTable.SortByFrequency | src/eixTk/stringutils.cc:683-697 | a rearrangement in which no word is more frequent than one before it |
| StringTable.IndexMap | src/eixTk/stringutils.cc:698-702 | every word is mapped to its place |
| StringTable.ReferenceBytesByWord | src/database/io.h:135-138 | the bytes of all references are the sum over the words of frequency times length of the index |
| StringTable.FrequencyOrderIsCheapest | src/eixTk/stringutils.cc:683-703 | among all orders of the same words, none has a smaller weighted length than one by frequency |
| StringTable.FinalizeIsOptimal | src/eixTk/stringutils.cc:687-703 | no other table of the hashed words lets all their references take fewer bytes |
| IndexRoundTrip.StringRoundTrip | src/database/io.cc:152-184 | a string is read back up to its first NUL, and skipping it ends at the same place |
| IndexRoundTrip.StringVectorRoundTrip | src/database/io_portage.cc:335-346 | a counted list of strings is read back |
| IndexRoundTrip.WordRoundTrip | src/database/io.h:135-145 | a word of the table is read back from its index |
| IndexRoundTrip.WordsRoundTrip | src/database/io.cc:186-210 | a list of words of the table is read back |
| IndexRoundTrip.JoinedRoundTrip | src/database/io.cc:212-229 | words read into one string come back with single blanks between them |
| IndexRoundTrip.SkipWordsRoundTrip | src/database/io.cc:231-243 | skipping a list of words ends where reading it ends |
| IndexRoundTrip.PartRoundTrip | src/database/io_portage.cc:48-66 | a part of a version is read back: its kind and its length share one number |
| IndexRoundTrip.DependRoundTrip | src/database/io_portage.cc:248-291 | the five dependency fields are read back, or skipped as a whole by their length |
| IndexRoundTrip.HeadRoundTrip | src/database/io_portage.cc:85-106 | a mask written as a byte is read back as a number, for every mask that is not the escape byte |
| IndexRoundTrip.BodyRoundTrip | src/database/io_portage.cc:107-135 | keywords, parts, slot and overlay are read back |
| IndexRoundTrip.TailRoundTrip | src/database/io_portage.cc:137-170 | the optional fields are read back for every combination of what is stored and what is wanted |
| IndexRoundTrip.VersionRoundTrip | src/database/io_portage.cc:84-246 | a version whose words are in the tables is read back, and the position is then behind it |
| IndexRoundTrip.VersionIdentity | src/database/io_portage.cc:84-246 | what is read equals what was written exactly for versions without NUL, with normal word lists and proper slots, and with the same optional fields on both sides |
| IndexRoundTrip.ReadIsLabelled | src/database/io_portage.cc:130-135 | a version that is read has the label and the priority of the overlay at the place that its key names, and none for an unknown key |
| IndexRoundTrip.SlotIdentity | src/eixTk/stringutils.cc:145-187 | slot and subslot are read back from their short form exactly if the slot has no slash, is not "0", and nothing holds a NUL |
| IndexRoundTrip.DependIdentity | src/database/io.cc:212-229 | the fields come back unchanged exactly if all five are normal word lists |
| IndexRoundTrip.PackageRoundTrip | src/database/io_portage.cc:303-333 | the length in front of a package is the exact distance to its end, and all fields are read back |
| IndexRoundTrip.PackageFields | src/database/io_portage.cc:303-328 | where each field of a package starts, and that it is read back from there |
| IndexRoundTrip.TwiceIsFaithful | src/database/io_portage.cc:84-246 | whatever a version was, once it has been written and read twice it comes back unchanged from then on |
| IndexRoundTrip.PackageIdentity | src/database/io_portage.cc:303-333 | a package comes back unchanged exactly if its category is the one it is read under, its texts hold no NUL, its versions are faithful, and inserting them one by one keeps their order |
| IndexRoundTrip.HeaderIdentity | src/database/io_header.cc:34-157 | a header comes back unchanged exactly if nothing in it holds a NUL, no overlay has a priority, and there is a table for dependencies only where it is stored and wanted |
| IndexRoundTrip.OverlayRoundTrip | src/database/io_header.cc:76-86 | an overlay is read back, but for its priority, which is not stored |
| IndexRoundTrip.StartRoundTrip | src/database/io_header.cc:34-86 | magic, version of the format, size and overlays are read back by every reader that accepts the current format |
| IndexRoundTrip.TablesRoundTrip | src/database/io_header.cc:88-104 | the five tables are read back |
| IndexRoundTrip.BitmaskRoundTrip | src/database/io_header.cc:118-124 | the bits for the stored fields are read back |
| IndexRoundTrip.EndRoundTrip | src/database/io_header.cc:106-139 | sets and bits are read back; the table for dependencies is read or skipped by its length |
| IndexRoundTrip.HeaderRoundTrip | src/database/io_header.cc:34-157 | every header is read back from its text |
| IndexRoundTrip.HeaderIsRefused | src/database/io_header.cc:34-60 | a text without the four magic bytes, of another format, or of one that is too old for the reader, is refused |
| IndexSample.StartBytes | src/database/io_portage.cc:395-410 | the first bytes of a header: magic, format, size, overlays |
| IndexSample.TablesBytes | src/database/io_portage.cc:411-431 | the bytes of five tables, in their order |
| IndexSample.EndBytes | src/database/io_portage.cc:432-462 | the bytes of sets, bits, and the table for dependencies behind its length |
| IndexSample.VersionBytes | src/database/io_portage.cc:186-246 | all bytes of one version in which no two fields are alike |
| IndexSample.PackageBytes | src/database/io_portage.cc:303-328 | the bytes of a package in front of its version |
| IndexSample.CategoryBytes | src/database/io_portage.cc:464-480 | the bytes of a category, and the length in front of its package |
| IndexHeader.VersionCovered | src/database/io_portage.cc:348-393 | the tables hold what writing a version looks up, if and only if they hold what preparing hashes for it |
| IndexHeader.TreeCovered | src/database/io_portage.cc:348-393 | the same for a whole tree |
| IndexHeader.OptimalCovers | src/database/io_portage.cc:348-393 | once the tables are finalized, nothing that the writer looks up is missing |
| IndexHeader.NoDependRefs | src/database/io_portage.cc:348-393 | without dependencies nothing is hashed for their table |
| IndexHeader.DBHeader.HashVersion | src/database/io_portage.cc:366-382 | the tables gain exactly the references of the version |
| IndexHeader.DBHeader.HashPackage | src/database/io_portage.cc:364-383 | the tables gain exactly the references of the package |
| IndexHeader.DBHeader.Prepare | src/database/io_portage.cc:348-393 | the tables cover the whole tree and each is a cheapest one for it; the other fields of the header stay |
| IndexHeader.DBHeader.FinalizeHashes | src/database/io_portage.cc:385-392 | all tables are finalized, the one for dependencies only if they are stored |
| IndexHeader.DBHeader.FindOverlay | src/database/header.cc:60-69 | a key within the overlays gives the overlay at that place of the list, a greater one the empty overlay |
| IndexHeader.DBHeader.AddOverlay | src/database/header.cc:74-77 | the new overlay is found under the returned key |
| IndexDatabase.WrittenCounted | src/database/io_portage.cc:34-46 | a length from a counting run, followed by the text itself, is the counted form of the text |
| IndexDatabase.Database.PutCh | src/database/io.h:77-80 | one byte is appended, if there is room |
| IndexDatabase.Database.GetCh | src/database/io.h:73-76 | the next byte and the next position, or the end |
| IndexDatabase.Database.WriteUChar | src/database/io.cc:132-140 | in counting mode the counter grows by one and nothing is written; else one byte is written or the write fails |
| IndexDatabase.Database.WriteNum | src/database/io.h:231-308 | in counting mode the counter grows by the length of the code; else exactly the code is written |
| IndexDatabase.Database.ReadNum | src/database/io.h:192-229 | the number that stands at the position, and the position behind it; failure at the end of the file |
| IndexDatabase.Database.WriteString | src/database/io.cc:181-184 | length and text are counted or written |
| IndexDatabase.Database.ReadString | src/database/io.cc:152-164 | the text up to its first NUL, and the position behind the whole |
| IndexDatabase.Database.SkipString | src/database/io.cc:166-179 | the position behind the text, without reading it |
| IndexDatabase.Database.WriteHashString | src/database/io.h:135-138 | the index of the word; the write fails for a word that is not in the table |
| IndexDatabase.Database.ReadHashString | src/database/io.h:139-147 | the word at the index that is read; failure for an index outside of the table |
| IndexDatabase.Database.WriteHashWords | src/database/io.cc:186-196 | number and indices of the words are counted or written |
| IndexDatabase.Database.WriteHashWordsOf | src/database/io.h:150-154 | the same for the words of a string |
| IndexDatabase.Database.ReadHashWords | src/database/io.cc:198-210 | the listed words |
| IndexDatabase.Database.ReadJoinedWords | src/database/io.cc:212-229 | the listed words, joined |
| IndexDatabase.Database.SkipHashWords | src/database/io.cc:231-243 | the position behind the list |
| IndexWriter.WritePart | src/database/io_portage.cc:173-184 | a part is counted or written in its packed form |
| IndexWriter.WriteDepend | src/database/io_portage.cc:285-291 | the five fields are counted or written; a missing word makes the write fail |
| IndexWriter.WriteCountedDepend | src/database/io_portage.cc:234-239 | the fields behind their length, also inside of an outer counting run |
| IndexWriter.WriteVersion | src/database/io_portage.cc:186-246 | a version is counted or written in all its fields; the write succeeds if the tables cover it and there is room |
| IndexWriter.WriteOptional | src/database/io_portage.cc:229-244 | exactly the fields whose flags are set are counted or written |
| IndexWriter.WritePackagePure | src/database/io_portage.cc:303-328 | a package is counted or written in all its fields |
| IndexWriter.WritePackage | src/database/io_portage.cc:330-333 | a package behind its length, also inside of an outer counting run |
| IndexWriter.WriteCategory | src/database/io_portage.cc:465-478 | a category with all its packages, the empty category included |
| IndexWriter.WritePackageTree | src/database/io_portage.cc:464-480 | all categories, in order |
| IndexWriter.WriteHash | src/database/io_portage.cc:335-346 | the words of a table, in order |
| IndexWriter.WriteHeader | src/database/io_portage.cc:395-462 | the whole header; the table for dependencies stands behind its length |
| IndexWriter.WriteIndex | src/database/io_portage.cc:348-480 | preparing and writing: the file is header and tree, the write fails for want of room alone, and the tables are cheapest |
| IndexReader.ReadPart | src/database/io_portage.cc:48-66 | the part at the position; failure for a length behind the end of the file |
| IndexReader.ReadDepend | src/database/io_portage.cc:248-283 | the fields, or the position behind them if they are not wanted |
| IndexReader.ReadHead | src/database/io_portage.cc:85-106 | EAPI, mask and restrictions at the position |
| IndexReader.ReadBody | src/database/io_portage.cc:107-135 | keywords, parts, slot and overlay at the position |
| IndexReader.ReadTail | src/database/io_portage.cc:137-170 | the optional fields at the position |
| IndexReader.ReadVersion | src/database/io_portage.cc:84-171 | the version at the position; an overlay that is not in the header makes it fail |
| IndexReader.ReadHash | src/database/io_header.cc:142-157 | the table at the position; it takes no further words |
| IndexReader.ReadOverlays | src/database/io_header.cc:72-86 | all overlays are appended |
| IndexReader.ReadHeader | src/database/io_header.cc:34-140 | the header at the position, or failure for a wrong magic, a format that is too old or too new, and a text that ends early |
| PackageCursor.NextFinds | src/database/package_reader.cc:122-146 | next finds the next package of the tree, across empty categories, and reports the end exactly if none is left |
| PackageCursor.EnterCategory | src/database/package_reader.cc:123-132 | entering a category leaves its packages and the categories behind it to be visited |
| PackageCursor.EnterPackage | src/database/package_reader.cc:134-146 | entering a package remembers where the next one starts |
| PackageCursor.ReadStep | src/database/package_reader.cc:26-96 | reading to any level on a visited package succeeds, and leaves the package with the fields of that level |
| PackageCursor.LeaveStep | src/database/package_reader.cc:98-120 | skip and release end at the remembered start of the next package, and so does reading everything itself |
| PackageCursor.RunSeesAll | src/database/package_reader.cc:26-146 | every run of next, any reads, and skip or release sees the packages of the tree in their order, each with the fields it was read to, and then the end |
| PackageCursor.SeenAreLabelled | src/database/io_portage.cc:130-135 | in whatever a run sees, each version has the label and the priority of the overlay that its key names |
| PackageCursor.WholeIndex | src/database/package_reader.cc:26-146 | the same from the text of a whole index on, header included |
| PackageCursor.FullReadReturnsTree | src/database/io_portage.cc:464-480 | releasing every package returns exactly the packages that were written, if and only if all of them are faithful |
| LazyReader.PackageReader.Next | src/database/package_reader.cc:122-146 | the class does what the cursor does; behind the end its counters have wrapped around |
| LazyReader.PackageReader.Read | src/database/package_reader.cc:26-96 | the class does what the cursor does, for every level asked for and every level reached before |
| LazyReader.PackageReader.ReadVersionList | src/database/package_reader.cc:68-82 | the versions of the file, inserted one by one, and the mark for duplicates that belongs to them |
| LazyReader.PackageReader.Skip | src/database/package_reader.cc:98-107 | the position is the remembered one |
| LazyReader.PackageReader.Release | src/database/package_reader.cc:113-120 | the package is complete and no longer owned by the reader |
| LazyReader.Survey | src/database/package_reader.cc:26-146 | a loop over rounds sees what the run of the cursor sees |
| LazyReader.OpenAndSurvey | src/database/io_header.cc:34-140 | opening a written index and running any rounds over it gives its header and its packages |
| LazyReader.WriteAndSurvey | src/database/io_portage.cc:348-480 | preparing, writing, opening and reading: the write fails exactly for want of room, and else the reader sees the whole tree, each version with the label of its overlay |
| Versions.CompareVersions | src/portage/basicversion.cc:280-310 | the loop over both part lists computes the comparison, with and without a right side that may be shorter |
| Versions.ShorterIsFront | src/portage/basicversion.cc:280-310 | with a right side that may be shorter, versions are equal exactly if it equals the first parts of the left side, where its last part may be a suffix whose number is left out; otherwise the result is that of the plain comparison |
| Versions.FrontOfFrontExactly | src/portage/basicversion.h:120-125 | being such a front is transitive exactly if the version in between does not leave out a last number that the right side writes out as a zero |
| Versions.CompareTilde | src/portage/basicversion.cc:312-329 | the loop computes the comparison without revisions |
| Versions.PartsCompareByKey | src/portage/basicversion.cc:39-95 | two parts of parsed versions compare as their keys do: rank, size, digits |
| Versions.SameLengthNumeric | src/portage/basicversion.cc:50-56 | numbers of the same length compare as texts |
| Versions.SameLengthTrimmed | src/portage/basicversion.cc:50-80 | fractions of the same length compare as without their trailing zeros, so the shortcut is right |
| Versions.VersionsCompareByKeys | src/portage/basicversion.cc:280-310 | versions compare as the sequences of their keys do, the end of a list included |
| Versions.CompareIsPreorder | src/portage/basicversion.cc:280-310 | comparing parsed versions is antisymmetric in sign, total and transitive, and equal exactly for equal keys |
| Versions.CompareAntisymmetric | src/portage/basicversion.cc:280-310 | exchanging the sides changes the sign, for all part lists, garbage included |
| Versions.CompareGarbage | src/portage/basicversion.cc:85-87 | behind any two fronts that are equal, garbage of different length compares equal, and of the same length as a text |
| Versions.CompareBySkeleton | src/portage/basicversion.cc:280-310 | versions with or without garbage compare as the sequences of their keys do, where all garbage has one key; if these are equal and both have garbage, it decides |
| Versions.OrderBreaksExactly | src/portage/basicversion.cc:39-95 | transitivity fails for three versions exactly if all have garbage behind equal fronts, the first and the last of one length and in the wrong order, and the one between of another length |
| Versions.GarbageBreaksOrder | src/portage/basicversion.cc:85-87 | any two characters in falling order, with garbage of any other length between them, break the order |
| Versions.TildeEqualsPlainEqual | src/portage/basicversion.cc:312-329 | comparing without revisions is equal exactly if the versions without their revisions are |
| Versions.TildeSignExactly | src/portage/basicversion.cc:312-329 | comparing without revisions gives what comparing the versions without their revisions gives, exactly if it does not stop at a prerelease suffix; where it does stop there, the sign is the opposite |
| PackageManagerSpec.NumericCompareIsInteger | src/eixTk/compare.cc:18-40 | comparing digits is comparing the numbers they denote, of any length and with leading zeros |
| PackageManagerSpec.TrimmedAreFractions | src/portage/basicversion.cc:57-78 | comparing digits as texts without their trailing zeros is comparing the fractions that they are behind a decimal point |
| PackageManagerSpec.ComponentStage | src/portage/basicversion.cc:57-84 | number components decide first, as integers, or as fractions if one has a leading zero; a longer list is above its prefix |
| PackageManagerSpec.LetterStage | src/portage/basicversion.cc:280-310 | then the letter decides, and none is below any |
| PackageManagerSpec.SuffixStage | src/portage/basicversion.h:29-41 | then the suffixes decide, in the order alpha, beta, pre, rc, none, p, and by their numbers |
| PackageManagerSpec.RevisionStage | src/portage/basicversion.cc:280-310 | then the revision decides, and any explicit one is above none |
| PackageManagerSpec.FlatCompareByStages | src/portage/basicversion.cc:280-310 | the single loop over flat parts is the sequence of the four stages |
| PackageManagerSpec.FlatAgreesWithSpecification | src/portage/basicversion.cc:280-310 | loop and specification agree exactly if it is not the case that a zero revision against none is all that differs |
| PackageManagerSpec.ZeroRevisionIsAbove | src/portage/basicversion.cc:280-310 | every version with a zero revision is above the same one without, and equal to it in the specification |
| VersionTexts.SpecifiedIsAccepted | src/portage/basicversion.cc:159-278 | the text of every version of the specification is accepted, with the parts that belong to it |
| VersionTexts.TextsCompareAsSpecified | src/portage/basicversion.cc:159-310 | two such texts, parsed and compared, are ordered as specified, exactly if it is not the case that a zero revision against none is all that differs |
| VersionTexts.SuffixesAreOrdered | src/portage/basicversion.h:29-41 | behind any accepted text without a revision, _alpha is below _beta, that below _pre, that below _rc, that below nothing, and that below _p, whatever their numbers are |
| VersionTexts.RevisionsAreOrdered | src/portage/basicversion.cc:246-265 | behind any such text, none is below any revision, revisions are ordered by their numbers, and a revision is below the same one with an inter-revision |
| VersionTexts.OneMoreCharacter | src/portage/basicversion.cc:159-206 | which characters are digits and which are letters |
| VersionTexts.DocumentedParts | doc/eix-db.txt.in:290-305 | the documented version string, with the kinds of its parts by their numbers |
| VersionParser.BasicVersion.ParseVersion | src/portage/basicversion.cc:159-278 | parts and result of the parser, for texts of any form, with or without garbage kept |
| VersionParser.BasicVersion.ParseComponents | src/portage/basicversion.cc:180-198 | the loop takes all number components, or fails at a dot without digits |
| VersionParser.BasicVersion.ParseSuffixParts | src/portage/basicversion.cc:208-244 | the loop takes all suffixes, or fails at an unknown one |
| VersionParser.BasicVersion.ParseRevisionParts | src/portage/basicversion.cc:246-265 | revision and inter-revision are taken if they are there |
| VersionParser.BasicVersion.GetFull | src/portage/basicversion.cc:126-130 | the texts of all parts |
| VersionParser.BasicVersion.GetPlain | src/portage/basicversion.cc:132-142 | the texts of the parts up to the revision |
| VersionParser.FullOfParse | src/portage/basicversion.cc:126-278 | what printing a parsed text gives, for every text: the text, its beginning if garbage is dropped, and without one dot if the components stop at a dot |
| VersionParser.PrintsBackExactly | src/portage/basicversion.cc:126-278 | a text is printed back exactly if its components do not stop at a dot without digits and no garbage is dropped |
| VersionParser.MalformedLosesDot | src/portage/basicversion.cc:180-190 | a malformed text for which the exact condition fails |
| VersionParser.ParseOfFull | src/portage/basicversion.cc:126-278 | parsing the text of a part list of the grammar gives that list |
| VersionParser.AcceptedExactlyGrammar | src/portage/basicversion.cc:159-278 | the accepted texts are exactly the texts of the part lists of the grammar, and each has one such list |
| VersionParser.AcceptedInGrammar | src/portage/basicversion.cc:159-278 | the parts of an accepted text follow the grammar and are all proper |
| VersionParser.ParsedVersionsAreOrdered | src/portage/basicversion.cc:159-310 | all texts that the parser accepts are totally preordered by the comparison |
| VersionParser.ParsedShape | src/portage/basicversion.cc:159-278 | whatever is parsed, garbage is at most the last part and all parts in front of it are proper |
| VersionParser.OrderOfTextsBreaksExactly | src/portage/basicversion.cc:159-310 | the exact condition under which three texts, garbage kept, break the order |
| VersionParser.TextsWithoutOrder | src/portage/basicversion.cc:85-87 | three texts that do |
| VersionParser.TildeSignDiffers | src/portage/basicversion.cc:317-321 | two texts whose versions are compared without revisions in the wrong sign |
| VersionParser.EqualButNoFront | src/portage/basicversion.cc:295-303 | two texts of equal versions, of which only one is equal to a third when it may be shorter |
| Packages.ExtendedIsPreorder | src/portage/extendedversion.cc:59-79 | with overlays and their priorities comparing versions is still antisymmetric and transitive, if the priority is a function of the overlay |
| Packages.SortedMeans | src/portage/extendedversion.cc:59-79 | what a sorted list is, in terms of versions, priorities and overlay keys |
| Packages.InsertKeepsSorted | src/portage/package.cc:46-87 | inserting into a sorted list gives a sorted list |
| Packages.InsertAddsOne | src/portage/package.cc:46-87 | inserting adds exactly the one version |
| Packages.InsertionsSort | src/portage/package.cc:46-87 | any sequence of insertions gives a sorted rearrangement of what was inserted |
| Packages.InsertedInOrder | src/portage/package.cc:46-87 | inserting the versions of a list in their order gives that list exactly if it is sorted |
| Packages.MarkOfInsertions | src/portage/package.cc:46-87 | after any sequence of insertions the mark says overlays exactly if two versions of overlays are equal, else some exactly if any two are |
| Packages.MarkTells | src/portage/package.cc:46-87 | the mark is overlays exactly if two versions with overlay keys above zero are equal, and none exactly if no two versions are |
| Packages.MarkMeaning | src/portage/package.cc:46-87 | when one insertion changes the mark, and to what |
| Packages.Package.AddVersionStart | src/portage/package.cc:46-87 | the loop inserts in front of the first greater version and leaves the mark of that insertion |
| Strings.EscapeString | src/eixTk/stringutils.cc:272-280 | the loop that inserts in place escapes every special character once |
| Strings.EraseEscapes | src/eixTk/stringutils.cc:282-294 | the loop that erases in place removes one level of escapes, a last lone backslash included |
| Strings.EscapeMeans | src/eixTk/stringutils.cc:272-280 | every special character and every backslash gets one backslash in front, wherever it stands, and nothing else changes |
| Strings.UnescapeEscape | src/eixTk/stringutils.cc:272-294 | erasing escapes undoes escaping |
| Strings.EscapedAt | src/eixTk/stringutils.cc:450-457 | counting back the backslashes says whether a delimiter is escaped |
| Strings.SplitString | src/eixTk/stringutils.cc:446-481 | the loop gives the fields between unescaped delimiters, with or without escapes and empty fields |
| Strings.JoinToString | src/eixTk/stringutils.cc:534-545 | the words, each behind glue once there is any text in front of it |
| Strings.SplitUndoesEscape | src/eixTk/stringutils.cc:272-481 | splitting escaped words, joined by a delimiter, gives the words, the empty ones too if they are not ignored |
| Strings.WordsOfJoin | src/eixTk/stringutils.cc:446-545 | the words of joined words are those words |
| Strings.WordsAreWords | src/eixTk/stringutils.cc:446-481 | splitting at white space gives nonempty words without white space |
| Strings.WordsMean | src/eixTk/stringutils.cc:446-481 | words are what stands between blanks, tabs and the ends of lines |
| Strings.GlueMeans | src/eixTk/stringutils.cc:534-545 | empty words in front get no glue, and those behind do |
| Dependencies.TrimAll | src/eixTk/stringutils.cc:123-139 | trimming in place is splitting at white space and joining by blanks |
| Dependencies.SubstTheSame | src/portage/depend.cc:28-51 | the first occurrence that stands between blanks or ends is replaced by the quote, and nothing else changes |
| Dependencies.FoldLooks | src/portage/depend.cc:24-69 | the text of a folded field, with the quote sign in the place of the other one; the first field is tried first |
| Dependencies.DependFields.Set | src/portage/depend.cc:53-69 | the fields are kept with one of the first two folded into the other, if it occurs there; the two are then shown as they were set, exactly if no quote is in the way |
| Dependencies.FoldIsLossless | src/portage/depend.cc:28-89 | substituting in a folded field gives the original, if that held no quote |
| Dependencies.FoldingIsInvisible | src/portage/depend.h:40-79 | the fields that are shown are the fields that were set, if they hold no quote |
| Dependencies.SubstKeeps | src/portage/depend.cc:71-89 | a field is shown as it is kept exactly if it holds no quote, or the other field is nothing but a quote |
| Dependencies.FoldKeeps | src/portage/depend.cc:28-89 | a folded field is shown as it was exactly if it has no quote in front of the fold |
| Dependencies.ShownIsSetExactly | src/portage/depend.cc:28-89 | the fields that are shown are the fields that were set, exactly if no quote is in front of the fold and the field that is not folded holds none; two equal fields may hold any |
| Dependencies.QuoteIsSubstituted | src/portage/depend.cc:71-89 | a field that is a quote of its own is shown as the other field |
| Dependencies.FoldThroughFile | src/database/io_portage.cc:248-291 | a folded field without quotes and NUL survives the file exactly if the other field has a word or the folded one has none |
| Dependencies.FieldsThroughFile | src/database/io_portage.cc:248-291 | set without normal white space, written, read and shown: the normal fields, exactly if what is folded has words |
| Dependencies.SetWriteReadGet | src/portage/depend.cc:53-89 | set with normal white space, written, read and shown: always the normal fields |
| Dependencies.WhiteSpaceFold | src/portage/depend.cc:28-51 | fields for which the exact condition fails, and what is shown for them: a blank stays in front |
| MergeDiff.CatnameOrder | src/portage/package.h:477-483 | the comparison of packages is a total order on category and name |
| MergeDiff.CatnameIsDictionary | src/portage/package.h:477-483 | it is the order of a dictionary on categories, and on names within a category |
| MergeDiff.DiffReaders.DoReadOld | src/eix-diff.cc:263-274 | the next package of the old index, or the remembered end |
| MergeDiff.DiffReaders.HandleEqualPackages | src/eix-diff.cc:293-299 | both packages are compared, reported if they differ, and disposed of |
| MergeDiff.DiffReaders.HandleOldPackage | src/eix-diff.cc:301-308 | the package is reported lost and disposed of, or kept for later |
| MergeDiff.DiffReaders.HandleNewPackage | src/eix-diff.cc:310-317 | the same for a package that was found |
| MergeDiff.DiffReaders.ReadInStep | src/eix-diff.cc:186-207 | the loop over both streams accounts for every package it leaves behind, whichever stream ends first |
| MergeDiff.DiffReaders.HandlePending | src/eix-diff.cc:208-214 | the package that was read when the other stream ended is accounted for |
| MergeDiff.DiffReaders.Finish | src/eix-diff.cc:215-238 | what was kept and what is left is reported and disposed of, in its order |
| MergeDiff.DiffReaders.Diff | src/eix-diff.cc:184-251 | the reports are those of merging both streams, with separate lists or not, and each package is disposed of exactly once |
| MergeDiff.MergeIsDifference | src/eix-diff.cc:184-317 | for streams in dictionary order, an event is reported exactly if it is a package of the old index only, of the new one only, or a pair of both |
| MergeDiff.EventsAreOrdered | src/eix-diff.cc:184-317 | for such streams, reports come in dictionary order, and so none is made twice |
| MergeDiff.SeparateReorders | src/eix-diff.cc:184-317 | separate lists change the order of the reports and nothing else |
| MergeDiff.SeparateGroups | src/eix-diff.cc:215-238 | with separate lists, compared pairs come first, then lost, then found packages, each group in its order |
| DelayedSyntax.FindNextDelayed | src/eixrc/eixrc.cc:546-668 | the scan finds the first tag at or behind a position, with its kind, extent, name and flags |
| DelayedTemplates.FindInPrint | src/eixrc/eixrc.cc:546-668 | in the text of any proper pieces the scan finds exactly the first one that is no literal |
| DelayedTemplates.PieceTag | src/eixrc/eixrc.cc:546-668 | the text of every proper reference, test and mark is read back, flags and appended text included |
| DelayedValues.EvalIsStable | src/eixrc/eixrc.cc:229-378 | the value of a key does not depend on the keys being evaluated, as long as it uses none of them |
| DelayedValues.ValueIsPlain | src/eixrc/eixrc.cc:229-378 | a value holds no more tags: what was substituted is not scanned again |
| DelayedValues.SelfReferenceIsCycle | src/eixrc/eixrc.cc:268-281 | a reported self-reference is a chain of references from the key back into itself |
| DelayedValues.RankedNeverSelfRefers | src/eixrc/eixrc.cc:268-281 | where references always go down, none is ever reported |
| DelayedValues.ChosenIsProper | src/eixrc/eixrc.cc:308-376 | what is left of a condition is again made of proper pieces |
| DelayedResolver.AppendEverywhere | src/eixrc/eixrc.cc:293-299 | the loop that inserts in place appends to every alternative |
| DelayedResolver.ChooseBranch | src/eixrc/eixrc.cc:308-376 | the loop that scans and erases in place keeps one branch of a condition, or reports the missing or double mark |
| DelayedResolver.EixRc.Apply | src/eixrc/eixrc.cc:282-300 | the flags of a reference, applied to its value |
| DelayedResolver.EixRc.ResolveDelayedRecurse | src/eixrc/eixrc.cc:229-378 | in any state of a run, editing in place gives a key the value of the evaluator or its error; all settled keys keep their values, and it ends |
| DelayedResolver.EixRc.ResolveAll | src/eixrc/eixrc.cc:186-227 | resolving keys in any order, repetitions included, leaves each with the value of the evaluator, or stops at the first error |
| DelayedResolver.EixRc.JoinKey | src/eixrc/eixrc.cc:473-501 | joining a key ends on every finite map and brings in all it refers to |
| DelayedResolver.EixRc.JoinKeyRec | src/eixrc/eixrc.cc:503-538 | scanning one value brings in its references and marks the key if it has a tag |
| DelayedResolver.EixRc.JoinKeyIfNew | src/eixrc/eixrc.cc:540-544 | a key that is there is not joined again |
| DelayedResolver.EixRc.JoinAll | src/eixrc/eixrc.cc:463-467 | afterwards the map is closed under references, and the marked keys are exactly those whose value has a tag |
| DelayedResolver.EixRc.ReadKeys | src/eixrc/eixrc.cc:163-192 | joining and then resolving: each key has the value of the evaluator over the joined values, or the first error is reported |
| DelayedResolver.UniverseExists | src/eixrc/eixrc.cc:473-544 | around every key there is a finite set that is closed under references, cyclic maps included |
| DelayedResolver.FitsResolved | src/eixrc/eixrc.cc:243-246 | settling one key keeps every other key as it has to be |
| DelayedJoins.JoinedIsEnough | src/eixrc/eixrc.cc:503-538 | if evaluating a key meets no key that was not joined and has a value, the joined values give the text or the error that all values give |
| DelayedJoins.AllJoinedMissesNothing | src/eixrc/eixrc.cc:503-538 | if all references of joined keys are joined, those of the tests for emptiness included, no such key is met |
| DelayedJoins.EmptinessSeesValue | src/eixrc/eixrc.cc:503-538 | a test for emptiness comes out as it does for a key that was not joined exactly if the value of its key is empty |
| DelayedJoins.TestedKeyIsMissed | src/eixrc/eixrc.cc:503-538 | a key that is only tested for emptiness: the joined values give another text than all values |
| DelayedTrees.ChooseBranches | src/eixrc/eixrc.cc:308-376 | in nested conditions the scan finds the marks that belong to its own |
| DelayedTrees.ScanIsRightExactly | src/eixrc/eixrc.cc:364-367 | the scan finds the right branch exactly if no test for emptiness is nested in the branches |
| DelayedTrees.EvalIsRender | src/eixrc/eixrc.cc:229-378 | for all maps of such templates the evaluator over pieces gives what the recursive meaning of the templates gives |
| DelayedTrees.EmptinessTestDoesNotNest | src/eixrc/eixrc.cc:364-367 | a nested test for emptiness that ends in an error |
| DelayedLaws.ConditionIsWritten | src/eixrc/eixrc.cc:546-668 | the text of a condition of each of the four kinds |
| DelayedLaws.ConditionMeans | src/eixrc/eixrc.cc:308-376 | which branch a condition stands for, by the characters of the value: false are the empty text, texts that start with n, f or of, and the texts 0 and -; the other two kinds ask for emptiness |
| DelayedLaws.VariableIsWritten | src/eixrc/eixrc.cc:546-668 | the text of a variable with all its flags |
| DelayedLaws.VariableMeans | src/eixrc/eixrc.cc:282-300 | the value of a variable with its flags: prefix, escaped white space, and text behind each alternative |
| DelayedLaws.EachAlternative | src/eixrc/eixrc.cc:293-299 | appending to a list of alternatives appends to each one |
| DelayedLaws.PlainValues | src/eixrc/eixrc.cc:229-246 | an unknown name is empty, and a slash is no path prefix |
| DelayedLaws.StrayMarks | src/eixrc/eixrc.cc:247-281 | texts for the errors of marks without a condition and of a key that refers to itself |
| DelayedLaws.OpenConditions | src/eixrc/eixrc.cc:308-376 | texts for the errors of an open condition and of a second else |
| DelayedLaws.NameCharacters | src/eixrc/eixrc.cc:546-668 | which characters make a name, and which make no tag |
| DelayedLaws.HeadsInAnyOrder | src/eixrc/eixrc.cc:546-668 | both head signs are found in any order |
| DelayedLaws.ElseInAnyCase | src/eixrc/eixrc.cc:546-668 | an else is found in capital letters, and the quote tag for what it is |
| DelayedLaws.JoinsMean | src/eixrc/eixrc.cc:503-538 | the keys that a list of pieces brings in: those of variables and plain tests, for all four programs with a star |
| VarsReader.VarsReader.JumpNoise | src/eixTk/varsreader.cc:138-153 | in noise, where the next line starts stays the same and at least one character is passed |
| VarsReader.VarsReader.NoiseQuote | src/eixTk/varsreader.cc:888-915 | the same within quotes, over escaped characters |
| VarsReader.VarsReader.JumpComment | src/eixTk/varsreader.cc:197-202 | a comment ends at the newline, quotes or not |
| VarsReader.VarsReader.JumpWhitespace | src/eixTk/varsreader.cc:212-266 | the kind of a line: comment, command, section, key or noise |
| VarsReader.VarsReader.FindAssignment | src/eixTk/varsreader.cc:276-322 | the key of an assignment and its sign, or where the next line starts |
| VarsReader.VarsReader.SpacedKey | src/eixTk/varsreader.cc:285-300 | a key with blanks inside ends at its last key character |
| VarsReader.VarsReader.EvalValue | src/eixTk/varsreader.cc:333-367 | the value of an assignment, or where the next line starts if there is none |
| VarsReader.VarsReader.EvalRead | src/eixTk/varsreader.cc:377-418 | a value goes on with the next piece or is complete |
| VarsReader.VarsReader.ValueQuote | src/eixTk/varsreader.cc:439-552 | a quoted piece adds its characters and references; the rest of the value is unchanged |
| VarsReader.VarsReader.ValueWhitespace | src/eixTk/varsreader.cc:565-655 | the same for a piece outside of quotes, up to a delimiter |
| VarsReader.VarsReader.PlainEscape | src/eixTk/varsreader.cc:712-720 | a plain escape stands for its character, and for nothing at a newline |
| VarsReader.VarsReader.SingleQuoteEscapePortage | src/eixTk/varsreader.cc:727-748 | an escape of portage in single quotes |
| VarsReader.VarsReader.DoubleQuoteEscapePortage | src/eixTk/varsreader.cc:770-815 | up to three backslashes of portage in double quotes, and a dollar behind them |
| VarsReader.VarsReader.WhitespaceEscapePortage | src/eixTk/varsreader.cc:837-872 | the same outside of quotes |
| VarsReader.VarsReader.ResolveReference | src/eixTk/varsreader.cc:936-975 | a reference adds the value of its variable; what is none falls back to one character |
| VarsReader.VarsReader.ResolveSectionReference | src/eixTk/varsreader.cc:981-1004 | the same for references of sections |
| VarsReader.VarsReader.VarAppend | src/eixTk/varsreader.cc:917-930 | a variable of the current section is found before the one of the same name outside |
| VarsReader.VarsReader.EvalSection | src/eixTk/varsreader.cc:659-705 | the section that is entered, or none for an unclosed name and for the name DEFAULT |
| VarsReader.VarsReader.AssignKeyValue | src/eixTk/varsreader.cc:160-191 | the variable is assigned, or a file is read; when the machine stops early |
| VarsReader.VarsReader.Compare | src/eixTk/varsreader.cc:174-184 | comparing with a fixed key never looks behind the text |
| VarsReader.VarsReader.Step | src/eixTk/varsreader.cc:1014-1019 | every state keeps what the text still comes to, and moves on or goes to a state of lower rank |
| VarsReader.VarsReader.ReadMem | src/eixTk/varsreader.cc:1014-1049 | the machine stops on every text that is not empty, with any flags, looks at no character at or behind the end, and assigns what the text means |
| VarsReader.WholePiece | src/eixTk/varsreader.cc:439-655 | a value is the same whether a piece of it is read or still to be read |
| VarsReader.SpacedKeyStops | src/eixTk/varsreader.cc:285-300 | behind a key there is a character that is no part of it |
| VarsLaws.ChunksRead | src/eixTk/varsreader.cc:439-655 | a value of any quoted, escaped and plain pieces and references is the concatenation of their texts and of the variables |
| VarsLaws.RefRead | src/eixTk/varsreader.cc:917-975 | a reference stands for the value of its variable, and for nothing if there is none |
| VarsLaws.ScriptMeans | src/eixTk/varsreader.cc:1014-1049 | a script of comments and assignments, with blanks and ignored text behind values, leaves what its lines set one after the other; each sees what was set before |
| VarsLaws.StopsAtBoth | src/eixTk/varsreader.cc:160-191 | where only keywords and slot are wanted, a script is read up to the line by which both are known, in either order; a blank in front of the sign hides the name of a key |
| VarsLaws.SourceMeans | src/eixTk/varsreader.cc:160-191 | `source` and the dot read a file, and what happens then |
| VarsLaws.NoSignMeans | src/eixTk/varsreader.cc:276-322 | a line without a sign sets nothing |
| VarsLaws.BadReferences | src/eixTk/varsreader.cc:936-975 | what is no reference stands for its first character |
| VarsLaws.OptionFilesAreScripts | src/eixrc/eixrc.cc:401-407 | the files of options are read as such scripts |
| PortageLaws.BareNameMeans | src/eixTk/varsreader.cc:936-975 | a reference without braces goes up to the last key character |
| PortageLaws.NoSubstitution | src/eixTk/varsreader.cc:439-552 | without substitution a dollar is a character |
| PortageLaws.SectionMeans | src/eixTk/varsreader.cc:659-705 | an assignment in a section sets the variable of that section; references take a variable of the section before the one of the same name outside; the section DEFAULT changes nothing |
| PortageLaws.ShortEscapesMean | src/eixTk/varsreader.cc:727-748 | what a character behind one backslash stands for, within both kinds of quotes |
| PortageLaws.LongEscapesMean | src/eixTk/varsreader.cc:770-815 | what two, three and four backslashes stand for in double quotes |
| PortageLaws.BareEscapesMean | src/eixTk/varsreader.cc:837-872 | what one, two and three backslashes stand for outside of quotes |
| PortageLaws.DollarBehindEscape | src/eixTk/varsreader.cc:770-872 | a dollar behind an escape is a character |
| PortageLaws.NewlineInQuotes | src/eixTk/varsreader.cc:497-552 | a newline in quotes is a blank |
| PortageLaws.SemicolonMeans | src/eixTk/varsreader.cc:212-266 | a line with a semicolon is a comment where there are sections |
| PortageLaws.SpacedKeyMeans | src/eixTk/varsreader.cc:285-300 | a key may have blanks inside, and those behind it are none of its own |
| PortageLaws.SectionEscapesMean | src/eixTk/varsreader.cc:659-705 | escapes in the name of a section |
| PortageLaws.PortageValues | src/eixTk/varsreader.cc:565-655 | signs that end values elsewhere are part of them, and blanks in front of them are skipped |
| PortageLaws.SectionReferences | src/eixTk/varsreader.cc:936-1004 | what is a reference in sections, up to the odd one that is taken for one |
| VarsDump.AsComment | src/eixrc/eixrc.cc:770-778 | the loop that inserts in place, which ends although the text grows, makes every line a comment |
| VarsDump.CommentedMeans | src/eixrc/eixrc.cc:770-778 | each newline is followed by the sign of a comment, and nothing else changes |
| VarsDump.DumpDefaults | src/eixrc/eixrc.cc:780-840 | the text of all options, in order |
| DumpRoundTrip.CommentSkipped | src/eixrc/eixrc.cc:770-778 | a comment of any text is skipped by the reader |
| DumpRoundTrip.EscapedIsRead | src/eixTk/varsreader.cc:497-515 | an escaped value in double quotes is read back, whatever its characters are |
| DumpRoundTrip.EscapedIsNoise | src/eixTk/varsreader.cc:905-915 | it is passed over as a whole in a line of noise |
| DumpRoundTrip.AssignmentRead | src/eixTk/varsreader.cc:212-322 | an assignment of any key of key characters and any value: the value is assigned if the key starts with a letter but `s` or with an underscore, and else the line changes nothing |
| DumpRoundTrip.DifferenceIsComment | src/eixrc/eixrc.cc:829-837 | the other value of an option is a comment, whatever it is |
| DumpRoundTrip.EntryRead | src/eixrc/eixrc.cc:780-840 | reading an entry assigns its value and nothing else |
| DumpRoundTrip.DumpIsRead | src/eixrc/eixrc.cc:780-840 | reading the dump of any options succeeds and assigns the dumped values over any variables |
| DumpRoundTrip.DumpVarsAre | src/eixrc/eixrc.cc:780-840 | with different keys, each readable one has its value, and all other variables are unchanged |
| DumpRoundTrip.DumpIsComplete | src/eixrc/eixrc.cc:780-840 | every option is back exactly if every key is readable |
| DumpRoundTrip.DumpedValues | src/eixrc/eixrc.cc:806-829 | which of its two values comes back for an option |
| DumpRoundTrip.EntryLooks | src/eixrc/eixrc.cc:780-840 | the lines of an entry: kind, description, assignment, and the other value as a comment |
| DumpRoundTrip.LocalEntryLooks | src/eixrc/eixrc.cc:806-813 | the lines of an option without a default |
| DumpRoundTrip.DumpAndRead | src/eixrc/eixrc.cc:401-407 | the dump, read by the machine with the flags for such files |
| FormatParsing.FormatParser.StateStart | src/output/formatstring.cc:473-492 | what the text still parses to stays the same, and a text state has a character to take |
| FormatParsing.FormatParser.StateText | src/output/formatstring.cc:494-507 | the text up to the next sign is one node, or the machine is about to look behind the end at a lone backslash |
| FormatParsing.FormatParser.StateColor | src/output/formatstring.cc:509-528 | a colour is one node, nothing without colours, or an error |
| FormatParsing.FormatParser.StateProperty | src/output/formatstring.cc:537-562 | a property or a variable is one node |
| FormatParsing.FormatParser.StateIf | src/output/formatstring.cc:564-721 | a mark, or a head with all its parts, or an error, or the machine is about to look behind the end at an open colour |
| FormatParsing.FormatParser.PopToOpen | src/output/formatstring.cc:723-773 | nodes are taken off the stack and linked, down to the topmost open condition |
| FormatParsing.FormatParser.StateElse | src/output/formatstring.cc:723-746 | what is above the open condition becomes its first branch |
| FormatParsing.FormatParser.StateFi | src/output/formatstring.cc:748-773 | what is above the open condition becomes the branch that is missing, and it is closed |
| FormatParsing.FormatParser.Start | src/output/formatstring.cc:775-834 | on every text the machine stops with the nodes of that text or its error, or it is about to look behind the end |
| FormatOverrun.MarksCount | src/output/formatstring.cc:723-773 | what both marks do to the number of open conditions, and when they fail |
| FormatOverrun.OverrunIsFound | src/output/formatstring.cc:473-834 | from any position and with any stack, the machine comes to look behind the end exactly if a scan says so that keeps the number of open conditions in place of nodes |
| FormatOverrun.OverrunExactly | src/output/formatstring.cc:775-834 | the same for whole texts |
| FormatOverrun.GoodEndsAreSafe | src/output/formatstring.cc:494-703 | every text that ends neither in a backslash nor in an open colour is read within its bounds |
| FormatOverrun.LoneBackslash | src/output/formatstring.cc:494-507 | texts that end in a lone backslash, behind which the machine looks |
| FormatOverrun.LoneParenthesis | src/output/formatstring.cc:681-703 | texts that end within a colour of a right hand side, behind which it looks |
| FormatRoundTrip.TextOfEscaped | src/output/formatstring.cc:494-507 | an escaped text is read back |
| FormatRoundTrip.HeadPrinted | src/output/formatstring.cc:564-721 | every proper head is read back: marks, name, and all three kinds of right hand sides |
| FormatRoundTrip.OnStack | src/output/formatstring.cc:723-773 | both marks find the open condition below any closed nodes |
| FormatRoundTrip.NodesParse | src/output/formatstring.cc:473-773 | a written list of nodes puts exactly these nodes onto any stack |
| FormatRoundTrip.ParseOfPrinted | src/output/formatstring.cc:473-834 | every proper list of nodes is rebuilt from its text, up to the empty text in an empty first branch |
| FormatLaws.HeadIsRead | src/output/formatstring.cc:564-721 | every head with a right hand side is read, in all five forms of the right hand side and with white space between all of its pieces |
| FormatLaws.ShortIsRead | src/output/formatstring.cc:598-616 | the same for heads without one, where the sign is turned |
| FormatLaws.EscapesMean | src/output/formatstring.cc:494-507 | what every escape in a text stands for |
| FormatLaws.ColumnsMean | src/output/formatstring.cc:494-507 | a column mark prints nothing |
| FormatLaws.ColorsMean | src/output/formatstring.cc:509-528 | what a colour in a text stands for, with colours on and off |
| FormatLaws.RhsColorsMean | src/output/formatstring.cc:681-703 | when a parenthesis in a right hand side is a colour |
| FormatLaws.OnlyColorsMean | src/output/formatstring.cc:473-507 | where only colours are read, the other signs are text |
| FormatLaws.OpenTextsFail | src/output/formatstring.cc:509-562 | texts for the errors of an open colour and an open property |
| FormatLaws.BadHeadsFail | src/output/formatstring.cc:564-640 | texts for the errors in heads |
| FormatLaws.StrayMarksFail | src/output/formatstring.cc:723-773 | texts for the errors of marks without a condition |
| FormatPrinting.PrintFormat.RecPrint | src/output/formatstring.cc:351-433 | the walk prints the meaning of the nodes and leaves the variables they set |
| FormatLaws.ConditionMeans | src/output/formatstring.cc:365-425 | from its text on, a condition prints its first branch if the property or variable on the left is what stands on the right, else its second one; with a sign it is exchanged |
| FormatLaws.ShortConditionMeans | src/output/formatstring.cc:365-425 | without a right hand side, it asks whether the left one is not empty |
| FormatLaws.AssignmentMeans | src/output/formatstring.cc:381-394 | an assignment prints nothing and sets its variable for what follows: to the right hand side, or with a sign to 1 if that is empty and else to nothing |
| FormatLaws.FlagMeans | src/output/formatstring.cc:381-394 | without a right hand side, it sets its variable to 1, and with a sign to nothing |
| FormatLaws.PropertiesMean | src/output/formatstring.cc:351-370 | a text and a property or variable behind it print the text and its value |
| FormatPrinting.PrintFormat.PrintString | src/output/formatstring.cc:339-349 | the text is appended, and it is said whether there was any |
| FormatPrinting.ParsedPrintsTheSame | src/output/formatstring.cc:351-834 | nodes that went through their text print the same as before |

## Left out

- Formats of the index older than 39, and the disabled readers: they would add easy cases to each reader.
- IndexHeader.DBHeader.FindOverlay: a key equal to the number of overlays is undefined behaviour in the program (src/database/header.cc:60-72); the model reads such a version as a failure.
- IndexDatabase.Database.WriteNum: numbers are unbounded; the widths of sizes and of the counter are not modelled. The counters of the reader wrap around at 2^64.
- IndexDatabase.Database.PutCh: a failing write is want of room; seeking behind the end of a file shows at the next read.
- IndexRoundTrip.VersionRoundTrip: the IUSE of a version is a list of words; EAPI is its name.
- Packages.Package.AddVersionStart: the version list is a sequence with an index in place of a linked list with an iterator, and package and version data are values.
- StringTable.SortByFrequency: the order of equally frequent words is left open, as the sort of the C++ library leaves it; the sort itself is by insertion.
- Wrong use of the index (a table that is not open, a missing word) ends the program by `exit`; in the model it is a failure like any other.
- DelayedResolver.EixRc.ResolveDelayedRecurse: stated for values made of proper pieces; the quote tag `%{%`, and literals that hold `%{` or end in `%`, are not modelled.
- DelayedResolver.EixRc.JoinKey: the bookkeeping of defaults is left out; the environment is a finite map.
- DelayedValues.SelfReferenceIsCycle: one way. A cycle whose references are never evaluated, in a branch that is not taken, is not reported.
- DelayedTrees.EvalIsRender: stated for templates in which no emptiness test is nested in a branch, which is the exact condition of ScanIsRightExactly.
- DelayedLaws.ConditionMeans: stated for values without NUL, and like VariableMeans for keys that are no path prefixes; PlainValues says what these do.
- DelayedJoins.JoinedIsEnough: one way, as both branches of a condition may happen to give the same text; EmptinessSeesValue is the exact condition for a single test.
- Strings.SplitString: the portable search for delimiters is modelled; the one with SSE2 (src/eixTk/stringutils.cc:415-443) also takes a NUL for a delimiter.
- VarsReader.VarsReader.ReadMem: reading another file is an unknown function of its name and of what is known so far; incremental keys, which are saved before and prepended after the machine has run (src/eixTk/varsreader.cc:1139-1172), and the texts of errors are left out. The machine looks at the first character of an empty text; the caller for files excludes it.
- VarsReader.VarsReader.ValueQuote: the states for plain values and those with the escapes of portage are one method each; the state names are kept.
- DumpRoundTrip.DumpIsRead: stated for keys made of key characters and for the flags of such files; messages are the untranslated ones.
- VarsLaws.ScriptMeans: stated for lines that end in a newline, and for ignored text without quotes and backslashes.
- FormatParsing.FormatParser.StateText: column marks have no text. Where the program would look behind the end of the text, the model stops and says so by a state of its own; what the program does from there on is undefined.
- FormatParsing.FormatParser.StateColor: what a colour description stands for is an unknown function.
- FormatRoundTrip.ParseOfPrinted: stated for nodes without colours, without empty and without adjacent texts, and for names without the signs of the language. A format is a C string in the program and a text without its terminator here; a NUL within a text, at which the program would stop, is not modelled.
- FormatPrinting.PrintFormat.RecPrint: properties are an unknown function; the arithmetic of columns in output strings is left out, as its sums are not those of the printed text.
- FormatLaws.ConditionMeans: the branches are lists of nodes as FormatRoundTrip writes them; white space, marks and right hand sides of the head are free.
- MergeDiff.DiffReaders.Diff: both readers are lists of packages, whether two packages differ is an unknown function, and the virtual overlays of the output are left out.
- Dependencies.FoldingIsInvisible: the flag for fields of old formats, and the short forms of fields, are left out.
- LazyReader.WriteAndSurvey: stated for masks that are not the escape byte, whose highest bit the program never uses (src/portage/keywords.h:26-35), and for overlay keys other than the number of overlays.
- Packages.InsertionsSort: stated, as InsertedInOrder is, for parsed versions whose priority is a function of their overlay; others need not have an order.
- LazyReader.PackageReader.Read: masks, local sets and the saved flags that are set once the versions are read (src/database/package_reader.cc:83-89).
- Masks, installed packages, sets and options of the command line: wide but easy, and no harder property needs them.
- Files, locks, directories, privileges and the environment: foreign calls.
- `casecontains`, `natcmp` and MD5: they are no part of the five components.
- Printing in XML and as protocol buffers, colours and status lines.
