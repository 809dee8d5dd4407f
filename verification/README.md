# RAT: verified models of its core algorithms

A Dafny model of seven self-contained algorithmic parts of RAT (the Reactor
Analysis Tool) and proofs of what they promise. Code that changes state step by
step is modelled as classes and methods that do the same steps; each method is
proved equal to a function that says the result outright, and the promises are
lemmas about those functions.

* **Getopt** (`GetoptScan`, `Getopt`, `CommandLine`, `GetoptFacts`, `GetoptMeant`).
  The resumable scan of `argv` that permutes it in place. `GetoptScan` is a
  reference that never moves anything: it reads the arguments from left to right
  and marks each as taken or passed over. The class does what the C code does,
  call by call, and is proved to report the same events and to leave `argv` as
  the taken elements followed by the others. A command line written from items
  (clusters, joined and separate arguments, long options and their abbreviations
  behind one dash or two, `-W` words, operands, `--`) is read back as those items.
  Where the C code runs past the end of `argv` (an ambiguous word after `-W` as the
  last element) there is a concrete command line and the exact condition for one
  option, for one call and for a whole run.
* **JSON** (`JsonText`, `JsonReader`, `JsonWriter`, `JsonRoundTrip`, `JsonFacts`,
  `JsonMeant`, `JsonHeap`). `JsonText` parses an unchanging text; `JsonReader` reads
  from the buffer it overwrites and gives the same results. A value spelled in any of
  the ways there are (gaps and comments, number formats, escapes, words or strings as
  keys in any order, repetition counts) is read as what it means. Written values are
  read back as they were. For values the writer can print (32-bit integers of either
  signedness, strings it can escape, no reals) the exact condition is on the keys:
  none is empty, and none holds, behind its first character, a quote without a
  backslash or a backslash that makes no escape.
  `JsonHeap` models the reference counts of `json::Value`: each block knows its
  holders and is freed when the last one leaves; in an acyclic heap the live blocks
  are exactly those that a path from a variable leads to, and an assignment is
  defined exactly if such a path leads to its source without its target.
* **RATDB** (`RatDb`, `RatDbRuns`, `RatDbMeant`). The cache of tables in front of a server.
  Over every run of lookups, loads, sets and growing tables the database replies
  as a plain one without a cache does; the queue is made of whole tables and so
  is every eviction; a pick reads the overlay of the three planes, and fails
  exactly where the first plane with an equivalent type holds a value that cannot
  be read. What is delivered is said of the stored value itself.
* **Integers as text** (`Digits`, `Radix`, `RadixFacts`, `RadixMeant`) and **lists**
  (`StringList`). Digits of a fixed alphabet are read and written as what they are
  worth. Writing in any radix and reading back, with the exact set of
  integers that survive; splitting and joining, with the exact set of lists that do.
* **PMT hits** (`HitPmt`). Merging of photons, for every threshold, with what
  the merged list keeps and how much earlier it may show a count, and the
  collection with its index of PMTs.
* **Numerics** (`RadicalInverse`, `Centroid`, `PmtCharge`) in exact arithmetic.
* **RATDB text** (`TokenText`, `Tokenizer`, `TokenMeant`). The nine-state tokenizer
  against a grammar of its tokens, with line and column at every token and error; a
  token of any kind, spelled out behind blanks and comments, is scanned as that token.

`Sequences` and `Wrappers` hold what several of these share.

## What the code does differently from its documentation or intent

* A string that is opened at the end of the text is reported as the end, without the
  error that other strings without a closing quote give (`TokenMeant.Unclosed`).
* A decimal that starts with `.` and has no other point and no exponent is
  scanned as an integer, and `%d` reads nothing of it (`TokenText.LeadingPoint` for
  `.5`; exact conditions `TokenText.ScannedAsFloating`, `TokenText.NumberRaises`).
* `-W` with an ambiguous word increments `optind` twice and can pass `argc`
  (`GetoptFacts.AmbiguousWordRunsPast`; exact conditions `TakeStaysInside`,
  `NextStaysInside` and `RunStaysInside`).
* An object with an empty key, with one that a bare quote ends early, or with one in
  which a backslash makes no escape, is written but not read back
  (`JsonFacts.EmptyKeyLost`, `JsonFacts.OddKeyLost`; exact condition
  `JsonFacts.RoundTripExactly`).
* A decimal padded with zeros is not always read back when the radix is left to
  the text, because the reader takes it for octal (`RadixFacts.PaddedTen`; exact
  condition `RadixFacts.RoundTrip`). Digits read in a given radix are still taken for
  a prefix if they begin with `0b` or `0x` (`RadixFacts.PaddedEleven`; exact condition
  `RadixFacts.GivenRadixRoundTrip`).
* `util_split` of the joined list `[""]` gives the empty list
  (`StringList.EmptyPieceLost`; exact condition `StringList.SplitJoined`).
* A field can have the type asked for and not be readable at it. Booleans, nulls
  and empty arrays have the integer type; an array has the type of its first
  element. Such a field hides the field of the planes below it, and the pick raises
  an error (`RatDbRuns.NoIntegerHides`, `RatDbRuns.MixedArrayHides`; exact condition
  `RatDbRuns.PickFailsExactly`).
* Merging a photon with the one behind it moves that one's whole count to the
  earlier time, and such moves add up: the shift is bounded by their number, not by
  the merge time (`HitPmt.MovesAddUp`, `HitPmt.ThreeMovesShowEarly`). A photon keeps
  the shift within the merge time exactly if the counts stored up to the photon it
  moves were all detected within the merge time behind it (`HitPmt.MergedStaysNear`).
* A `json::Value` assigned to itself becomes null if nothing else holds its data
  (`JsonHeap.Heap.Assign`). Assigning an element of an array or object to the only
  Value that holds it is undefined, as the element is freed before it is read
  (`JsonHeap.SoleElementAssigned`; exact conditions `JsonHeap.ElementAssigned`,
  `JsonHeap.AssignDefined`, and in any heap `JsonHeap.Heap.Assign`).

## Model

| member | source | states |
|---|---|---|
| CommandLine.ParseCommandLine | RAT/bin/rat.cc:262-299 | Calling getopt until it returns -1 ends; the calls report the events of the left-to-right reference scan; argv is then the taken elements followed by all others, both in their first order, with optind at the boundary; argv is always a permutation, and unchanged in the two orders that do not permute; optind is argc + 1 exactly if the scan ran over |
| Getopt.GetoptData.Exchange | RAT/base/getopt.cc:192-269 | The block of passed-over elements and the block of options behind it change places, each in order; nothing else moves; the new bounds are those of the moved block |
| Getopt.GetoptData.Initialize | RAT/base/getopt.cc:273-308 | The first call sets the order from optstring and the environment, and an empty block of passed-over elements at optind |
| Getopt.GetoptData.Next | RAT/base/getopt.cc:393-504 | One call returns and stores what the reference scan says and leaves argv laid out as the marks say: passed-over elements in one block, taken ones around it, the rest untouched |
| Getopt.GetoptData.LookUp | RAT/base/getopt.cc:536-563 | The loop over the table finds what the reference does, with the row it finds and the complaint for a name of two meanings |
| GetoptMeant.MatchMeans | RAT/base/getopt.cc:536-563 | A name is found in a row exactly if that row is the first to have it, or if no row has it, the row is the first that it begins, and it begins no other, or (unless the match is strict) only ones that differ in nothing but the name; it is ambiguous exactly if no row has it and two that it begins differ, or the match is strict; it is unknown exactly if it begins none |
| Getopt.GetoptData.LongOption | RAT/base/getopt.cc:526-792 | A long option takes its value after `=` or from the next element as its table row says, or fails with the code for a missing or unwanted value |
| Getopt.GetoptData.WOption | RAT/base/getopt.cc:856-1083 | `-W word` is the long option `--word`, including its failures and the second increment of optind when the word is ambiguous |
| Getopt.GetoptData.ShortOption | RAT/base/getopt.cc:794-1155 | A short option takes the rest of its element, the next element or nothing as optstring says |
| Getopt.SelectedPermutes | RAT/base/getopt.cc:192-269 | Elements that were taken, then those that were not, are together the elements there were |
| Getopt.LayoutExchange | RAT/base/getopt.cc:192-269 | A rotation of the two blocks keeps the layout that the marks describe |
| Getopt.LayoutStop | RAT/base/getopt.cc:483-504 | Wherever the scan stops, argv is the taken elements followed by all others in order |
| GetoptFacts.TakeStaysInside | RAT/base/getopt.cc:794-1155 | One option uses more elements than there are exactly if the last word is an ambiguous operand of -W |
| GetoptFacts.NextStaysInside | RAT/base/getopt.cc:393-504 | One call leaves optind past the end exactly if the element it comes to, after the non-options it passes over, is such a last word |
| GetoptFacts.RunStaysInside | RAT/base/getopt.cc:427-504 | A run passes the end of argv exactly if some number of its calls leads to a state in which the next one comes to such a word |
| GetoptFacts.NoLongFormStaysInside | RAT/base/getopt.cc:794-1155 | So without `W;` in optstring no run does |
| GetoptFacts.AmbiguousWordRunsPast | RAT/base/getopt.cc:856-985 | A command line on which the scan does pass it |
| GetoptFacts.RunExplained | RAT/base/getopt.cc:427-504 | In the permuting order what is passed over before `--` are non-options, a non-option taken is the argument of the option before it, and behind `--` all is passed over |
| GetoptMeant.ReadAsMeant | RAT/base/getopt.cc:506-1155 | Items written as arguments, then nothing, `--`, or an operand where the order is required, and whatever stands behind that, are reported as exactly those items, in order, each with its argument or its complaint; every element is marked as taken or passed over. Items are clusters, also of unknown letters, arguments joined, separate or (if optional) not there, long options by name or abbreviation behind two dashes or, with getopt_long_only, one, names of two meanings or none, words of -W, and operands, which are passed over or handed over |
| GetoptMeant.ItemRead | RAT/base/getopt.cc:506-1155 | The words of one item are read as that item, whatever follows |
| GetoptMeant.MissingRead | RAT/base/getopt.cc:1098-1155 | A cluster that ends the command line without its argument gives the missing code, with its letter as optopt |
| GetoptMeant.LongMissingRead | RAT/base/getopt.cc:674-718 | So does a long option, with its value as optopt |
| GetoptMeant.VerIsDivided | RAT/base/getopt.cc:536-563 | `--ver` is refused if the table has `verbose` and `version` |
| JsonReader.Reader.GetValue | RAT/DB/json.cc:150-216 | Reading from the overwritten buffer gives the value, end or error that parsing the first text gives, stops at the same position, and leaves what is not yet read as it was |
| JsonReader.Reader.ReadNumber | RAT/DB/json.cc:246-363 | Same for numbers: decimal, hexadecimal, fraction and exponent, with 32-bit wrap-around |
| JsonReader.Reader.ReadString | RAT/DB/json.cc:365-380 | Same for strings: they end at the first quote that is not escaped |
| JsonReader.Reader.ReadObject | RAT/DB/json.cc:382-448 | Same for objects, with quoted and unquoted keys |
| JsonReader.Reader.ReadArray | RAT/DB/json.cc:450-500 | Same for arrays, with repetition counts |
| JsonReader.Reader.UnescapeString | RAT/DB/json.cc:604-648 | Copying in pieces between escapes gives the text with each escape replaced, or fails at the first unknown one |
| JsonMeant.ReadAsMeant | RAT/DB/json.cc:150-500 | A value spelled behind gaps, in front of a delimiter or the end, is read as what it means, and reading stops behind it: numbers by their digits, with 32-bit wrap-around, strings by their pieces, arrays as each element as often as its count says, and objects, whatever the order of their members and however often keys are repeated, as ascending keys that are exactly those written, each with the value written last |
| JsonMeant.ValueMeans | RAT/DB/json.cc:150-500 | The same for a value at any place of any text |
| JsonMeant.SetMemberIs | RAT/DB/json.hh:168-168 | Setting a member replaces the one with its key or adds one, keeps all others, and keeps the keys ascending |
| JsonMeant.BothMembers | RAT/DB/json.cc:382-448 | `{b:1,a:2}` is read with both members, in the order of their keys |
| JsonWriter.Writer.PutValue | RAT/DB/json.cc:510-561 | What is written is the rendering of the value and a newline, unless a string cannot be escaped |
| JsonWriter.Writer.EscapeString | RAT/DB/json.cc:563-602 | Copying in pieces gives the text with each character escaped that must be, or fails at the first that cannot |
| JsonMeant.WriterEscapes | RAT/DB/json.cc:563-602 | Quote, both slashes and the five control characters that have an escape are written as it, other characters from blank to DEL as themselves, and all else is refused |
| JsonMeant.ObjectLayout | RAT/DB/json.cc:510-561 | An object is written with a line for each member and a comma behind each |
| JsonMeant.ArrayLayout | RAT/DB/json.cc:510-561 | An array is written with a comma and a blank behind each element |
| JsonMeant.LeafLayout | RAT/DB/json.cc:510-561 | null, booleans and strings as they are spelled |
| JsonWriter.ParseDocuments | RAT/DB/DBJsonLoader.cc:21-36 | All documents of a file are returned if every one is an object |
| JsonRoundTrip.RoundTrip | RAT/DB/json.cc:150-561 | A list of values, with any 32-bit integers, signed and unsigned, written one after the other and read until the end, is the same list |
| JsonRoundTrip.StringBack | RAT/DB/json.cc:365-648 | An escaped string between quotes is read back as the string, and reading stops behind the closing quote, whatever follows |
| JsonFacts.RoundTripExactly | RAT/DB/json.cc:382-561 | A value that can be written comes back from its text exactly if no key in it, however deep, is empty, ended early by a quote without a backslash, or holds a backslash that makes no escape |
| JsonFacts.ValueKeyed | RAT/DB/json.cc:382-448 | Whatever the text, the reader never makes an empty key, nor one with a bare quote behind its first character, unless a comment inside an unquoted key put it there |
| JsonFacts.BadEscapeFails | RAT/DB/json.cc:382-648 | If all keys end at their own quotes but in some one a backslash makes no escape, reading stops with that error, wherever the key is |
| JsonFacts.EmptyKeyLost | RAT/DB/json.cc:382-448 | A value that is written but not read back |
| JsonFacts.OddKeyLost | RAT/DB/json.cc:382-448 | So are those with the key `x"y` or `x\q` |
| JsonFacts.RepetitionExpands | RAT/DB/json.cc:450-500 | `v1:n1, v2:n2, ...` is the array of n1 copies of v1, n2 of v2 and so on, and its length is the sum of the counts |
| JsonHeap.Heap.DecRef | RAT/DB/json.hh:190-194 | A holder leaves: every block's count stays its holders less one, the block goes if that was the last, and nothing outside what the value leads to is freed |
| JsonHeap.Heap.Clean | RAT/DB/json.cc:48-65 | A block without holders is freed with the holders inside it; fewer blocks are live afterwards |
| JsonHeap.Heap.Copy | RAT/DB/json.hh:101-101 | A copy shares the block and adds one holder; nothing is freed |
| JsonHeap.Heap.ConstructBlock | RAT/DB/json.hh:84-98 | A new block has one holder and its slots are copies of the given values |
| JsonHeap.Heap.TakeOut | RAT/DB/json.hh:190-194 | When the Value of a place is released, exactly those blocks stay alive that are held without it: by a variable, or from inside a set of blocks so held |
| JsonHeap.Heap.Assign | RAT/DB/json.hh:107-107 | The assignment is defined exactly if target and source lie in blocks held without the target; then the target holds what the source held, or null if a sole holder was assigned to itself, the balance of counts is kept, exactly the blocks held without the target are alive, and all else in them is as it was |
| JsonHeap.Heap.Destroy | RAT/DB/json.hh:104-104 | A variable goes; only blocks it led to may go with it |
| JsonHeap.Heap.Reset | RAT/DB/json.cc:27-46 | The value becomes null or holds a new empty block, exactly if its own block is held without it |
| JsonHeap.LiveIsReached | RAT/DB/json.hh:84-104 | In an acyclic heap a block is alive exactly if a path from a variable leads to it |
| JsonHeap.HeldByPath | RAT/DB/json.hh:84-107 | And it is held without some places exactly if such a path avoids them |
| JsonHeap.AssignDefined | RAT/DB/json.hh:107-107 | In an acyclic heap an assignment is defined exactly if its source is a variable or a path that avoids the target leads to it |
| JsonHeap.ElementAssigned | RAT/DB/json.hh:107-107 | An element may be assigned to a Value that holds its container exactly if something else holds that, too |
| JsonHeap.SharedElementAssigned | RAT/DB/json.hh:107-107 | `doc = query; doc = doc[0]` is such an assignment |
| JsonHeap.SoleElementAssigned | RAT/DB/json.hh:107-107 | `doc = doc[0]` alone is not |
| JsonHeap.NothingLeaks | RAT/DB/json.hh:84-104 | When no variable holds structured data, an acyclic heap has no live block |
| JsonHeap.AcyclicLeadsElsewhere | RAT/DB/json.hh:107-107 | In an acyclic heap no value leads to the block it lies in |
| JsonHeap.AcyclicStays | RAT/DB/json.hh:107-107 | So a target is always there when its old value has been released |
| JsonHeap.WrittenAcyclic | RAT/DB/json.hh:107-107 | Writing a value into a block it does not lead to keeps the heap acyclic |
| RatDb.DB.FindTable | RAT/DB/DB.cc:338-443 | In every valid state the table found has the fields the database without a cache gives: the local ones, else exactly the server's answer; it is missing or fatal exactly when that says so; after a fetch the billed bytes are within the limit and no group was given up without need |
| RatDb.DB.Evict | RAT/DB/DB.cc:407-423 | Whole groups leave from the front of the queue, with their keys, until there is room or nothing left, and one group fewer would not have been enough |
| RatDb.DB.AppendRuns | RAT/DB/DB.cc:425-436 | The new table goes under each run of its range and into the queue in order, only the last run billed |
| RatDb.QueueKeysDiffer | RAT/DB/DB.cc:425-436 | No key is in the queue twice |
| RatDb.WholeGroups | RAT/DB/DB.cc:415-423 | A loop that stops as soon as there is room always stops between two tables |
| RatDb.DB.LoadTable | RAT/DB/DB.cc:72-120 | A loaded table is found under each run of its range, and nothing else changes |
| RatDb.DB.FindOrCreateTable | RAT/DB/DB.cc:484-498 | The table found, or a new empty user table |
| RatDb.DB.SetI | RAT/DB/DB.cc:445-449 | One field of one user table is set; every other local table keeps its fields |
| RatDb.DB.SetD | RAT/DB/DB.cc:451-455 | Same for doubles |
| RatDb.DB.SetS | RAT/DB/DB.cc:458-462 | Same for strings |
| RatDb.DBTable.SetS | RAT/DB/DBTable.hh:169-174 | The field is set and the bytes are those of the new text in place of the old one |
| RatDb.FieldSetApart | RAT/DB/DB.cc:445-462 | If the user plane shares no table with a run, a set changes exactly one key's field |
| RatDbRuns.Replay | RAT/DB/DB.cc:72-498 | Over any run of lookups, loads, sets and growing tables the replies are those of a database without a cache |
| RatDbRuns.DBLink.Pick | RAT/DB/DBLink.cc:96-122 | The first plane with a field of an equivalent type is read, in the order user, run, default, or the field is not found |
| RatDbRuns.PickReadsOverlay | RAT/DB/DBLink.cc:86-122 | Every pick reads the overlay, user over run over default, of what the planes show at the type asked for |
| RatDbRuns.PickAtOneType | RAT/DB/DBLink.cc:96-122 | For a field used at one type that is the overlay of the planes themselves |
| RatDbRuns.PickDelivers | RAT/DB/DBLink.cc:86-122 | A pick delivers exactly if the value of the first plane with an equivalent type can be read at the type asked for, also when a plane is fatal |
| RatDbRuns.PickFailsExactly | RAT/DB/DBLink.cc:86-122 | "Some plane has the field with an equivalent type" tells whether a pick delivers, except exactly where the first such plane holds a value that cannot be read; the field is reported as not found exactly when there is no such plane |
| RatDbMeant.PickMeans | RAT/DB/DBTable.cc:39-160 | What is delivered: the stored value itself if it is an integer, double or string asked for as such or anything asked for as JSON; the number or, beyond 31 bits, the number with the same bits for an unsigned one; arrays element by element; and nothing else, nor from any plane but the first that has the field with an equivalent type |
| RatDbMeant.PickMisses | RAT/DB/DBLink.cc:96-122 | If no plane has it so, the field is reported as not found |
| RatDbMeant.FiveIsPicked | RAT/DB/DBLink.cc:96-122 | A five in the user plane is picked as five |
| RatDbMeant.SetIsPicked | RAT/DB/DB.cc:445-462 | An integer, double or string that was set is what a pick at its type delivers |
| RatDbMeant.PlainMeans | RAT/DB/DB.cc:338-443 | Of a key the plain database knows the local table, else, if the server has the name, its answer: a table, none, or a fatal error for two |
| RatDbMeant.AfterMeans | RAT/DB/DB.cc:72-120 | Behind a load exactly the runs of its range have the loaded table; behind a set exactly one field of one user table has changed |
| RatDbMeant.RepliesMean | RAT/DB/DB.cc:72-498 | The n-th reply of a run is what the plain database knows of the n-th key asked for, when all operations before have been done, up to a fatal one |
| RatDbMeant.BillIsBytes | RAT/DB/DB.cc:407-436 | The queue is billed the bytes of each table in it once |
| RatDbRuns.NoIntegerHides | RAT/DB/DBTable.cc:96-157 | A boolean, a null or an empty array set for the user hides an integer of the run |
| RatDbRuns.MixedArrayHides | RAT/DB/DBTable.cc:96-157 | So does an array of an integer and a string hide an array of integers |
| RatDbRuns.SetThenPick | RAT/DB/DB.cc:445-462 | A set is what later picks of the field read |
| RatDbRuns.SetThenPickOther | RAT/DB/DB.cc:445-462 | At a type its value cannot be read at, a set only takes the old user value away |
| RatDbRuns.SetThenPickElsewhere | RAT/DB/DB.cc:445-462 | Picks of other fields and tables do not change |
| Radix.Image | RAT/base/GLG4StringUtil.cc:51-369 | The text is the sign and digits of the number, or its bit pattern in groups with one 0 bit kept in front for signed types, with as many digits as are needed or asked for, behind its prefix |
| Radix.AllBits | RAT/base/GLG4StringUtil.cc:103-107 | The mask loop gives all bits of the type and one 0 in front |
| Radix.Fit | RAT/base/GLG4StringUtil.cc:115-124 | Extending and trimming give the bits of the value in the greater of the width and what the value needs |
| Radix.Value | RAT/base/GLG4StringUtil.cc:468-914 | The number a text stands for under its prefix or the given radix, modulo the width of the type, or the error |
| RadixFacts.RoundTrip | RAT/base/GLG4StringUtil.cc:51-369 | Written by default in any radix at any width and read with the radix left to the text, an integer comes back if and only if it is not a padded decimal that octal reads otherwise |
| RadixFacts.PaddedTen | RAT/base/GLG4StringUtil.cc:51-369 | Ten at width 3 is written `010` and read as eight |
| RadixFacts.PaddedEleven | RAT/base/GLG4StringUtil.cc:477-523 | Eleven in radix 16 at width 2 is written `0b` and read in radix 16 as zero |
| RadixFacts.RoundTripUnpadded | RAT/base/GLG4StringUtil.cc:51-369 | At width 0 every integer comes back, in every radix |
| RadixFacts.HashRoundTrip | RAT/base/GLG4StringUtil.cc:206-208 | With a hash prefix every integer comes back at every width |
| RadixFacts.BitRoundTrip | RAT/base/GLG4StringUtil.cc:97-186 | As a bit pattern every integer comes back at every width: the extra 0 bit is absorbed |
| RadixFacts.GivenRadixRoundTrip | RAT/base/GLG4StringUtil.cc:477-523 | Plain digits read in the radix they were written in come back if and only if they do not look like a prefix of C |
| RadixMeant.Alphabet | RAT/base/GLG4StringUtil.cc:22-42 | Digit d is written as character d of 0 to 9 and a to z, and that and its capital are read as d |
| RadixMeant.OtherCharacters | RAT/base/GLG4StringUtil.cc:22-42 | All other characters are no digits |
| RadixMeant.PlainRead | RAT/base/GLG4StringUtil.cc:468-914 | Digits behind an optional sign are read as what they are worth in the radix, modulo the width of the type |
| RadixMeant.PrefixRead | RAT/base/GLG4StringUtil.cc:468-914 | Digits behind `0x`, `0b` or, if the radix is left open, 0 are read as a bit pattern that repeats its first bit if the type is signed |
| RadixMeant.HashRead | RAT/base/GLG4StringUtil.cc:468-914 | Digits behind a decimal and a hash are read in the radix that says |
| RadixMeant.NoDigitRead | RAT/base/GLG4StringUtil.cc:468-914 | Any character that is no digit of the radix is an error, wherever it stands |
| RadixMeant.DigitsShown | RAT/base/GLG4StringUtil.cc:51-369 | Where digits are shown, the text is sign and digits worth the number, no more than needed or asked for, behind the radix and a hash where the style has it |
| RadixMeant.BitsShown | RAT/base/GLG4StringUtil.cc:51-369 | Where bits are shown, the digits are worth the number or, if negative, its two's complement, and are the fewest that have room for it and, in a signed type, its sign |
| RadixMeant.Californium | RAT/base/GLG4StringUtil.cc:468-914 | `252` is read as 252, and 252 written as `252` |
| RadixMeant.CapitalDigits | RAT/base/GLG4StringUtil.cc:468-914 | `0xFF` is read as -1 at 32 bits |
| StringList.UtilSplit | RAT/base/GLG4StringUtil.cc:980-1001 | The pieces joined are the text, each but the last ends where the splitter first stands, and the last holds none |
| StringList.UtilJoin | RAT/base/GLG4StringUtil.cc:1003-1013 | The pieces with the joiner between them |
| StringList.SplitJoined | RAT/base/GLG4StringUtil.cc:980-1013 | A joined list splits into itself if and only if it is not the list of one empty text and its pieces cannot be confused with the splitter |
| StringList.EmptyPieceLost | RAT/base/GLG4StringUtil.cc:980-1013 | The list of one empty text, joined and split, is the empty list |
| StringList.OneCharacter | RAT/base/GLG4StringUtil.cc:980-1013 | For a splitter of one character: if and only if no piece holds it |
| StringList.JoinSplit | RAT/base/GLG4StringUtil.cc:980-1013 | Every text splits into pieces that join to it |
| StringList.PiecesFree | RAT/base/GLG4StringUtil.cc:980-1001 | No piece holds the splitter |
| StringList.SplitsOneWay | RAT/base/GLG4StringUtil.cc:980-1001 | A text splits in one way only |
| HitPmt.HitPMT.DetectPhoton | RAT/core/GLG4HitPMT.cc:77-116 | Below the threshold the photon is appended; otherwise the list is sorted and the photon merged with the neighbour before or after it if close in time, or inserted; the stored photons stay faithful to all detected ones, and show no count earlier than the number of merges with the photon behind allows; they keep within the merge time exactly if there was room for the photon to move the one behind it |
| HitPmt.JoinsLast | RAT/core/GLG4HitPMT.cc:92-99 | A photon less than 1 ns behind the last one before it is added to that one's count |
| HitPmt.JoinsNext | RAT/core/GLG4HitPMT.cc:100-108 | Else, if there is one before it, it is added to the next one if that is less than 1 ns later, which takes its time |
| HitPmt.StandsAlone | RAT/core/GLG4HitPMT.cc:82-114 | Otherwise it is stored for itself |
| HitPmt.MergedFaithful | RAT/core/GLG4HitPMT.cc:82-114 | Merging conserves the total count, stores only detected times, keeps an earliest time for each photon, and never shows a count later than it was detected |
| HitPmt.MergedNotBefore | RAT/core/GLG4HitPMT.cc:62-114 | If no count is shown more than some time early, none is after one more photon, which adds a merge time only if it is merged with the photon behind it |
| HitPmt.MergedStaysNear | RAT/core/GLG4HitPMT.cc:62-114 | If no count is shown more than some time early, at least the merge time, that is still so after one more photon exactly if it moves no photon, or the counts stored up to the one it moves are no more than were detected by that time behind it |
| HitPmt.MovesAddUp | RAT/core/GLG4HitPMT.cc:62-114 | n photons, each half a merge time before the last, are merged one after the other with the photon behind: no count is then shown more than some time before it was detected exactly if that time is at least n half merge times |
| HitPmt.ThreeMovesShowEarly | RAT/core/GLG4HitPMT.cc:62-114 | Detected at 0, 10, 9.5, 9 and 8.5, four counts are stored at 8.5, more than a merge time before the one of time 10 |
| HitPmt.MergedSorted | RAT/core/GLG4HitPMT.cc:82-114 | The list is sorted after merging |
| HitPmt.HitPMT.SortTimeAscending | RAT/core/GLG4HitPMT.cc:119-122 | The same photons in order of time |
| HitPmt.HitPMTCollection.DetectPhoton | RAT/core/GLG4HitPMTCollection.cc:37-56 | The photon goes to the PMT with its id, made if there is none; ids stay unique and the map names the PMT in the list with an id |
| HitPmt.HitPMTCollection.GetPMTByID | RAT/core/GLG4HitPMTCollection.cc:79-90 | There is a PMT exactly if a photon was detected with that id, and it has detected those photons |
| HitPmt.HitPMTCollection.SortTimeAscending | RAT/core/GLG4HitPMTCollection.cc:58-63 | The same PMTs, each sorted, in the order of their first photons |
| HitPmt.HitPMTCollection.Conserved | RAT/core/GLG4HitPMTCollection.cc:37-56 | All PMTs together hold the total count detected |
| RadicalInverse.RadicalInverse | RAT/base/RadicalInverse.hh:6-19 | The loop computes the digits of n mirrored at the point |
| RadicalInverse.InverseIsSum | RAT/base/RadicalInverse.hh:6-19 | The value is the sum of the digits of n, the i-th from the end divided by b^(i + 1) |
| RadicalInverse.SixMirrored | RAT/base/RadicalInverse.hh:6-19 | 6 is 110 in binary and gives 0.375 |
| RadicalInverse.HitOnce | RAT/base/RadicalInverse.hh:6-19 | For each j below b^k exactly one n below b^k has the value j / b^k |
| RadicalInverse.OnTheGrid | RAT/base/RadicalInverse.hh:6-19 | Every n below b^k has such a value |
| RadicalInverse.UnitInterval | RAT/base/RadicalInverse.hh:6-19 | The value lies in [0, 1) |
| RadicalInverse.Injective | RAT/base/RadicalInverse.hh:6-19 | Different numbers have different values |
| Centroid.CentroidCalculator.Fill | RAT/base/CentroidCalculator.hh:32-39 | The moments stay those of all points |
| Centroid.CentroidCalculator.Add | RAT/base/CentroidCalculator.hh:42-46 | The moments are those of both sets of points |
| Centroid.CentroidCalculator.GetMean | RAT/base/CentroidCalculator.hh:49-49 | The mean lies in every box around the points that have weight |
| Centroid.MeanBalances | RAT/base/CentroidCalculator.hh:49-49 | The weighted distances from the mean add up to 0 |
| Centroid.FourPoints | RAT/base/CentroidCalculator.hh:49-60 | Weight 1 at 0 and 3 at 4 have mean 3 and mean square deviation 3 |
| Centroid.CentroidCalculator.GetRMS | RAT/base/CentroidCalculator.hh:52-60 | The root is taken of what has one, and the result is the standard deviation |
| Centroid.RootDefined | RAT/base/CentroidCalculator.hh:52-60 | What is under the root is never negative, and 0 if and only if all points with weight agree |
| Centroid.SamePoints | RAT/base/CentroidCalculator.hh:32-46 | Accumulators given the same points in any order and any parts are equal |
| PmtCharge.PDFPMTCharge.constructor | RAT/daq/PDFPMTCharge.cc:28-38 | The arrays hold the density and its trapezoid integral, both divided by the whole integral; for a density that is a cumulative from 0 to 1 |
| PmtCharge.PDFPMTCharge.PickCharge | RAT/daq/PDFPMTCharge.cc:46-55 | For a random number in (0, 1] the loop finds a segment that rises, never falls through, and gives a charge within range |
| PmtCharge.Load | RAT/daq/PDFPMTCharge.cc:10-39 | The program goes on exactly if both arrays have one length of at least 2 |
| PmtCharge.PickedInverts | RAT/daq/PDFPMTCharge.cc:46-55 | The interpolated cumulative at the picked charge is the random number |
| PmtCharge.EveryChargePicked | RAT/daq/PDFPMTCharge.cc:46-55 | Every charge where the cumulative rises is the one picked for its cumulative |
| PmtCharge.PickedIncreases | RAT/daq/PDFPMTCharge.cc:46-55 | More is picked for a greater random number |
| PmtCharge.StraightDensity | RAT/daq/PDFPMTCharge.cc:28-38 | For a density on a straight line the running integral is the exact one |
| PmtCharge.LineThrough | RAT/daq/PDFPMTCharge.cc:46-55 | Between two points the interpolation goes evenly from one to the other |
| PmtCharge.Tent | RAT/daq/PDFPMTCharge.cc:28-55 | A density rising from 0 at 0 to 2 at 1 and falling to 1 at 3 has a quarter of its area before 1; 0.125 picks 0.5 and 0.625 picks 2 |
| Tokenizer.Tokenizer.Next | RAT/DB/DBTextLoader.cc:91-274 | The machine returns, stores and raises what the grammar of tokens says, and stops behind the token; line number and start of line are those of the position, also at every raised error |
| Tokenizer.Tokenizer.RaiseError | RAT/DB/DBTextLoader.cc:43-52 | The error holds the line, the column in it and the text of that line |
| Tokenizer.AllTokens | RAT/DB/DBTextLoader.cc:91-274 | Call by call a text gives its tokens, no more than it has characters, up to its end or the first error |
| TokenText.MovesOn | RAT/DB/DBTextLoader.cc:91-274 | A call stays where it is exactly at the end of the text and at a character that no token, blank or comment starts with; only the end of the text is reported as the end |
| TokenText.ScannedAsFloating | RAT/DB/DBTextLoader.cc:122-209 | A number in front of more text is scanned as floating-point exactly if it has a point or exponent mark that is not just a point in front |
| TokenText.NumberRaises | RAT/DB/DBTextLoader.cc:183-209 | With what C's `%d` accepts, a number raises an error exactly if it has no such mark behind its first character and does not start with a digit or a sign and a digit |
| TokenText.LeadingPoint | RAT/DB/DBTextLoader.cc:122-209 | `.5` is not scanned as a double, and raises an error with what C's `%d` accepts |
| TokenMeant.ScannedAsMeant | RAT/DB/DBTextLoader.cc:91-274 | A symbol, identifier, string in either quotes, decimal or hexadecimal number, spelled behind blanks and comments and in front of any text that does not go on with it, is scanned as that token, and the call stops behind it |
| TokenMeant.TextMeans | RAT/DB/DBTextLoader.cc:229-259 | A string is what its pieces stand for, in order: characters for themselves, also the other quote, and the eight escapes for theirs |
| TokenMeant.BadPiece | RAT/DB/DBTextLoader.cc:242-255 | A backslash before any other character is an error |
| TokenMeant.Unclosed | RAT/DB/DBTextLoader.cc:229-274 | A string that is not closed is an unexpected end, but for an empty one, which is the end as such |
| TokenMeant.StringAsWritten | RAT/DB/DBTextLoader.cc:229-240 | `"ab"` is the string ab |
| TokenMeant.LineMeans | RAT/DB/DBTextLoader.cc:43-52 | The line number is one more than the line ends before the position |
| Tokenizer.ParseTableName | RAT/DB/DB.cc:506-542 | The name and index of a descriptor, blanks and comments apart |
| Tokenizer.NameIsTokens | RAT/DB/DB.cc:506-542 | A name and index are found exactly if all tokens of the text are an identifier, or one with another in brackets behind it |
| Tokenizer.NameBack | RAT/DB/DB.cc:506-542 | `NAME` and `NAME[INDEX]` give back their identifiers |
| Tokenizer.NamesAreIdentifiers | RAT/DB/DB.cc:506-542 | What is found are identifiers |

## Left out

- Getopt: printed error messages, `_LIBC` branches and the lookup of the environment (POSIXLY_CORRECT is a boolean) are not modelled; nor is a caller that moves optind between calls, and a run stops when optind has left argv.
- GetoptMeant.ReadAsMeant: does not cover ambiguous words of `-W`, which may run past the end (`GetoptFacts` covers them), nor `-` and `+` as letters, which at the front of optstring are marks of the order; the reference scan covers those, too.
- CommandLine.ParseCommandLine: an option whose table value is -1 cannot be told from the end by the C caller; the model keeps the two apart.
- JSON: texts with NUL characters, line and column in parser errors, and the printing of reals are not modelled; a real stands for the text handed to `atof`, and what `atoi` does on overflow is taken to be wrap-around.
- JsonFacts.RoundTripExactly: says nothing of keys with a NUL, with a backslash at the very end that escapes the closing quote, or with both a bare quote and a slash: the reader goes on inside such a key, and can make keys of the last two kinds from unquoted text and comments, so that what it makes of the rest depends on all of it.
- JsonMeant.ReadAsMeant: keys with backslashes (which `JsonFacts` covers), unquoted keys with a comment inside, and texts that are errors have no spelling; the parser covers them.
- JSON: setters that change the type of a value, and casts.
- JsonHeap: texts of strings and keys of objects (an object is its sequence of member slots), and containers that shrink.
- RATDB: `Clear`, deferred array attachments, array setters and overwrites, the HTTP and CouchDB layer, links and their registry, and log output. What a query answers is a parameter; a table answered for a run is assumed to be answered for all runs of its range, and local keys are assumed not to be on the server. Table bytes are unbounded integers.
- RatDb.Get: elements of string arrays that are not strings are not converted to text.
- Radix.Image: text conversion of floating-point numbers and pointers, the messages of exceptions (hence the calls that put the radix into them), and overflow of the width times the bits in a group.
- StringList.UtilSplit: an empty splitter, for which the loop never ends.
- HitPmt: photons have an id, a time and a count; the other attributes play no part. Photons are values owned by their list; `std::sort` is an insertion sort with the same contract; the shipped threshold is a parameter.
- PmtCharge: `PDF`, the random generator and the database access; a whole integral of zero is excluded.
- Centroid.CentroidCalculator.GetMean: a total weight of zero, which gives infinities in floating point.
- Numerics: rounding.
- Tokenizer: what `sscanf` makes of a number is a parameter; the parser of tables above the tokenizer, `#include`, files and the stack of tokenizers.
