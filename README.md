# Irrep tables of the little groups of space groups

This project is a Dafny model of the core of the `irreptables` package: the
line-oriented reader and writer for the tables of irreducible
representations (irreps) of the little groups of the 230 space groups.

A table holds:
- the space-group number and name;
- its symmetry operations (`SymopTable`): a 3x3 integer rotation, a
  translation and a 2x2 spinor matrix stored as magnitudes and phases in
  units of pi;
- the maximal k-points (`KPoint`): a label, coordinates and the indices of
  the little co-group;
- for each k-point, the irreps (`Irrep`): a label, a dimension and a
  character per symmetry.

The package reads two formats, and the model covers both:
- **Legacy machine format.** `IrrepTable(..., fromUser=False)` reads a
  header and one symmetry per line. Each irrep record has a header line,
  a presence flag per symmetry of the group, and a flag line and a
  coefficient line for every matrix element. Records are read until an
  `IndexError`. The irreps of the requested kind (spinor or scalar) are
  kept, the symmetry count is halved and the symmetry list is cut.
- **User format.** `save4user` writes this format and
  `IrrepTable(..., fromUser=True)` reads it back. The lines are reversed
  into a stack and popped one by one. The header is made of `key=value`
  settings up to `symmetries=`. Then come `nsym` symmetry lines, where
  lines that do not parse are skipped. Last come k-point lines, each
  followed by the irreps of its little group. Lines that read neither as a
  k-point nor as an irrep of the last k-point are dropped.

How the model is built:
- **Exceptions.** Python exceptions become a `Result` with the exception
  kind (`ValueError`, `IndexError`, `AssertionError`, `RuntimeError`,
  `AttributeError`, `TypeError`). `HelperError` stands for whatever a
  helper outside the core raises.
- **Text.** `str.split()`, `str.split(c)`, `strip`, `lower` (on ASCII
  letters), `join`, `int`, `str` on integers and `float` on decimal text
  are written out.
- **Outside helpers.** numpy's `abs`, `angle`, `real` and `imag` of a
  complex number, Python's `str` of a float, and `str_`, `str2bool` and
  `str2list_space` from `irrep.__aux` are fields of a `Host` record. Every
  operation that uses them takes the record as a parameter. A lemma that
  needs a property of one of these helpers (that it prints a number as one
  whitespace-free token, say) states that property as a precondition.
- **Complex numbers.** These are kept symbolically:
  - `Re(x)`;
  - `Exp(m, p)` for m·e^{iπp};
  - `Sum(parts)`.
- **Files.** A file being read is a `LineReader` (class `LineReader` in
  `MachineIrreps`) with the file's lines and a read position. The reversed
  list of the user reader is a `Stack` class whose `Pop` removes the last
  item.
- **Dictionaries.** A dictionary is a sequence of key/value pairs with the
  semantics of a dict comprehension: a repeated key keeps its first
  position and takes the last value.
- **Imperative readers.** They are methods with loops. Each is proved
  equal to a specification function of the lines it reads, and the
  properties of the tables are proved about those functions as lemmas.

Behaviour of the code that the model keeps:
- **The `SG` check never runs.** The user reader compares a lower-cased
  key with `"SG"`, so that comparison can never hold (`NeverSG`). A line
  `SG=…` is therefore ignored like any other unknown key.
- **Broadcasting in `__init__user`.** numpy broadcasting is modelled.
  - A user irrep line with `nsym + 1` numbers after the label and
    dimension counts as complex. All its characters then share the one
    phase.
  - A user symmetry line with 17 tokens parses. All four spinor entries
    then share one phase.
- **Halving.** `int(x / 2)` truncates toward zero, so a negative count is
  halved toward zero (`HalfTrunc`).
- **User irreps and `save4user`.** An irrep built from the user format
  never gets a `hasuvw` attribute, so `save4user` on a table read from the
  user format raises `AttributeError` as soon as the table holds at least
  one irrep (`SaveTables.Visit`).

## Model

| member | source | states |
|---|---|---|
| Symop.ParseRotation | irreptables/__init__.py:64 | the rotation parses iff there are at least nine tokens and the first nine are integers; it then holds those nine values in order; otherwise ValueError |
| Symop.ParseTranslation | irreptables/__init__.py:65 | the translation parses iff every token in the clamped slice 9:12 is a float; it then holds exactly those values, so it has fewer than three entries on a short line |
| Symop.EveryOther | irreptables/__init__.py:67-68 | the extended slice `numbers[start::2]`: its length and that element i is token start + 2i |
| Symop.PolarMatrixOk | irreptables/__init__.py:66-69 | magnitudes times e^{iπ·phase}, reshaped to 2x2, succeeds iff every token is a float and the broadcast shapes give four entries (4 and 4, 4 and 1, or 1 and 4); entry k pairs magnitude k (or the single one) with phase k (or the single one) |
| Symop.MachineLayout | irreptables/__init__.py:63-69 | a machine symmetry line parses iff it has exactly 20 tokens, nine integers and then eleven floats; R holds the nine integers, t the next three floats, and spinor entry k is Exp(token 12+2k, token 13+2k) |
| Symop.UserLayout | irreptables/__init__.py:82-91 | a user symmetry line parses iff it has at least nine tokens, nine integers, floats in positions 9 to 19 where present, and at most 12, exactly 17, or at least 20 tokens; R holds the integers, t the up to three floats after them, S is the identity up to 12 tokens and otherwise pairs tokens 12-15 with tokens 16-19 (UserEntry) |
| Symop.RowTokens | irreptables/__init__.py:110 | a printed rotation row splits back into the text of its three integers |
| Symop.RotationTokens | irreptables/__init__.py:110 | the three rows joined by three spaces split back into the nine integers, in row order |
| Symop.SpinorTextTokens | irreptables/__init__.py:113-126 | the spinor suffix is empty without `spinor`; with it, it starts with a space and splits into the four printed magnitudes followed by the four printed phases |
| Symop.StrTokens | irreptables/__init__.py:109-127 | the tokens of `str(spinor)` are the nine rotation integers, the printed translation and, when spinor, the printed magnitudes and then the printed phases |
| Symop.UserReadsStr | irreptables/__init__.py:82-127 | reading `str(spinor)` with the user constructor gives back R exactly, t as the printed reals read back, and S as the identity or as the printed magnitudes and phases read back |
| Symop.UserReadsStrPlain | irreptables/__init__.py:82-127 | the same round trip without the spinor part: S reads back as the identity |
| Symop.UserReadsStrSpinor | irreptables/__init__.py:82-127 | the same round trip with the spinor part: S is rebuilt from the printed magnitudes and phases |
| Symop.UserReadsStrExactly | irreptables/__init__.py:82-127 | when `str_` prints each translation component so that it reads back unchanged, the round trip restores R and t exactly |
| CharFunctions.Eval | irreptables/__init__.py:142-154 | calling a character function (`__call__`) succeeds iff every term has a coefficient (otherwise IndexError); the result is the sum, term by term, of coefficient times e^{iπ·(dot product of the remaining entries with (1, u, v, w), cut at the shorter)} |
| CharFunctions.ExponentAtZero | irreptables/__init__.py:152 | at the default u = v = w = 0 the exponent of a term is its second entry, or 0 when it has none |
| CharFunctions.EvalAtDefaults | irreptables/__init__.py:142-154 | `f()` succeeds iff every term is non-empty, and term i is then Exp(a0, a1) (or Exp(a0, 0)) |
| KPoints.Parse | irreptables/__init__.py:188-198 | `KPoint(line=...)` succeeds iff there are at least three colon fields, the first field has at least two words and starts with `kpoint`, the second field splits into floats and the third field reads as an index list; it is then the label, those floats and those indices; a first word other than `kpoint` raises ValueError |
| KPoints.Equals | irreptables/__init__.py:220-226 | `__eq__` raises ValueError iff the labels agree but the coordinate arrays do not broadcast; it is true iff the labels agree, the squared distance is at most 1e-16 (norm at most 1e-8) and the index lists agree |
| KPoints.SqDistZero | irreptables/__init__.py:222 | the squared norm of the paired coordinate differences is zero iff every pair of coordinates agrees |
| KPoints.EqualsReflexive | irreptables/__init__.py:220-226 | every k-point equals itself |
| KPoints.EqualsSymmetric | irreptables/__init__.py:220-226 | `a == b` and `b == a` give the same result, the error included |
| KPoints.IndexTextsAvoidColon | irreptables/__init__.py:254 | the printed index list contains no colon, so it stays in the third colon field |
| KPoints.ReadIndices | irreptables/__init__.py:254 | the printed index list splits and parses back to the same integers |
| KPoints.StrFields | irreptables/__init__.py:251-255 | the line `kpoint <str>` splits on colons into exactly the label field, the coordinate field and the sorted index field |
| KPoints.ParseStr | irreptables/__init__.py:188-255 | reading back `kpoint <str>` gives the same label, the printed coordinates read back and the indices sorted ascending |
| KPoints.ParseStrExactly | irreptables/__init__.py:188-255 | when the coordinates print so that they read back unchanged and the indices are ascending, reading back `str` gives the same k-point |
| Irreps.UserCharactersOk | irreptables/__init__.py:372-379 | the user character parse yields at least nsym numbers iff UserShape holds: nsym floats after label and dimension, plus (when the count is not exactly nsym) a phase block of nsym, or of one, whose floats parse; character i is then the real value, or magnitude i times e^{iπ·phase} with the single shared phase when there are nsym + 1 numbers |
| Irreps.UserLayout | irreptables/__init__.py:366-380 | `Irrep(line=..., k_point=kp)` succeeds iff the line has a label, an integer dimension and the character shape; the irrep then has the k-point's coordinates and label, nsym = number of little-group indices, reality iff exactly nsym numbers follow, characters keyed by kp.isym in order, and no `hasuvw` |
| Irreps.UserKeys | irreptables/__init__.py:380 | the characters of a user irrep have distinct keys, exactly the little-group indices; when those are distinct there are nsym of them in the same order |
| Irreps.SortedCharacters | irreptables/__init__.py:403 | the characters listed in ascending key order, entry i being the value at the i-th smallest key |
| Irreps.MaxAbsImagAbove | irreptables/__init__.py:404 | the maximum of the absolute imaginary parts exceeds a bound iff some character's does |
| Irreps.Str | irreptables/__init__.py:402-409 | `str` fails iff the irrep has no characters (ValueError, the max of an empty array) or one of them is a character function rather than a number (TypeError) |
| Irreps.CharacterTokens | irreptables/__init__.py:404-408 | the printed characters split into the magnitudes and then the phases when some imaginary part exceeds 1e-6, and into the real parts otherwise |
| Irreps.StrTokens | irreptables/__init__.py:403-409 | the tokens of `str` are the label, the dimension and the printed characters |
| Irreps.ReadsCharacter | irreptables/__init__.py:372-408 | printed characters always have the user shape, and character i reads back as the printed value read back |
| Irreps.ReadsValues | irreptables/__init__.py:366-380 | a line of the user shape whose characters read as vals builds the irrep with exactly those characters on the k-point's indices |
| Irreps.ReadsPrinted | irreptables/__init__.py:366-408 | a line whose tokens are a label, a dimension and printed characters reads as that irrep, real iff nothing was printed as complex |
| Irreps.StrReadsBack | irreptables/__init__.py:351-409 | `str` of an irrep read with a k-point whose indices are its sorted keys gives back label, dimension, reality and the printed characters read back |
| Irreps.StrReadsBackKeys | irreptables/__init__.py:380-403 | after that round trip the characters are keyed by the original keys in ascending order |
| Dicts.PutKeys | irreptables/__init__.py:343 | storing a key keeps the keys distinct, adds exactly that key and maps it to the new value |
| Dicts.FromPairsKeys | irreptables/__init__.py:380 | a dict comprehension has distinct keys, exactly the keys it was given |
| Dicts.FromPairsDistinct | irreptables/__init__.py:380 | on pairs with distinct keys a dict comprehension keeps them unchanged and in order |
| Sorting.SortSpec | irreptables/__init__.py:254 | `sorted` gives an ascending permutation of its input |
| Sorting.SortMembers | irreptables/__init__.py:403 | `sorted` keeps the length and exactly the members |
| Sorting.SortAscending | irreptables/__init__.py:254 | `sorted` leaves an ascending list unchanged |
| Sorting.SortDistinct | irreptables/__init__.py:532 | sorting distinct indices keeps them distinct, so a set of keys sorts without duplicates |
| Numbers.ParseIntIntToStr | irreptables/__init__.py:370 | `int(str(i)) == i` for every integer, so a printed dimension or index reads back |
| Numbers.HalfTrunc | irreptables/__init__.py:311 | `int(n / 2)` truncates toward zero: twice the result is within one of n, at most n for n ≥ 0 and at least n for n < 0 |
| Numbers.Broadcast | irreptables/__init__.py:375-379 | numpy broadcasting of two 1-D arrays succeeds iff the lengths agree or one is 1; the result has the length of the array that is not of length 1 (the common length when they agree), and entry i pairs entry i of each array, an array of length 1 giving its one entry every time |
| Numbers.Slice | irreptables/__init__.py:373 | a Python slice `s[lo:hi]` is clamped to the sequence: it holds the entries from lo up to min(hi, len(s)), and is empty when lo is past that end |
| Numbers.SliceFloats | irreptables/__init__.py:65 | a clamped slice of tokens parses as floats iff every present token in that range does |
| Numbers.MapAllAt | irreptables/__init__.py:306 | converting a list elementwise succeeds iff every element converts, and then element i is the conversion of input i |
| MachineIrreps.LineReader.constructor | irreptables/__init__.py:460-464 | an opened file is positioned at its first line |
| MachineIrreps.LineReader.ReadLine | irreptables/__init__.py:304 | `readline` returns the line at the position (the empty string past the end) and advances by one |
| MachineIrreps.HeaderLayout | irreptables/__init__.py:304-312 | an irrep header parses iff it has at least nine tokens, three floats first and integers at 5, 6 and 8; it then holds k, name s[4], kpname s[7], dim, nsym = s[6] halved toward zero, and reality |
| MachineIrreps.BlankHeader | irreptables/__init__.py:304-307 | an empty header line (the end of the file) raises IndexError, which is what ends the legacy record loop |
| MachineIrreps.DiagonalLineIs | irreptables/__init__.py:325-329 | the d-th diagonal element starts 2·(d·dim + d) lines after the first element |
| MachineIrreps.EntryFlagStrip | irreptables/__init__.py:330-338 | the stripped flag line "1" means no uvw dependence, "2" means uvw dependence, anything else is an error |
| MachineIrreps.DiagonalParts | irreptables/__init__.py:327-339 | a diagonal element reads iff its flag line is 1 or 2 and its next line splits into floats; it is then that flag and those coefficients |
| MachineIrreps.DiagonalsOk | irreptables/__init__.py:325-339 | the matrix elements read iff every diagonal element reads, giving one flag and one coefficient list per row |
| MachineIrreps.DiagonalsEntry | irreptables/__init__.py:325-339 | flag d and coefficients d come from the d-th diagonal element |
| MachineIrreps.DiagonalsIgnoreOffDiagonal | irreptables/__init__.py:328-329 | off-diagonal lines are read but not inspected: changing them does not change the result |
| MachineIrreps.ReadEntries | irreptables/__init__.py:325-339 | the double loop over matrix elements returns exactly the diagonal flags and coefficients, or the first error, and on success consumes 2·dim² lines |
| MachineIrreps.SlotFlagChecks | irreptables/__init__.py:316-322 | a slot line is accepted iff it reads as `isym 0` or `isym 1`, and present iff `isym 1`; a wrong index is AssertionError and a flag other than 0 or 1 is RuntimeError |
| MachineIrreps.SlotLines | irreptables/__init__.py:316-339 | an absent slot takes one line and a present one 1 + 2·dim² lines, with dim flags and coefficient lists |
| MachineIrreps.ReadSlot | irreptables/__init__.py:316-339 | reading one slot returns exactly the slot the specification describes at the start position and ends after it |
| MachineIrreps.StoredKeys | irreptables/__init__.py:340-343 | the stored character functions have ascending distinct keys: exactly the present slots with 2·isym ≤ nsym_group |
| MachineIrreps.AdvanceTrace | irreptables/__init__.py:340-343 | one slot step appends the slot, keeps the stored characters equal to those of the present first-half slots and `hasuvw` true iff some slot has uvw dependence |
| MachineIrreps.SlotsTrace | irreptables/__init__.py:315-343 | after n slots the loop has consumed at least n lines, its stored characters are those of the present first-half slots and `hasuvw` holds iff some slot had uvw dependence |
| MachineIrreps.NextSlot | irreptables/__init__.py:315-343 | one pass of the slot loop extends the specification by one slot, or reports the error the whole loop ends with |
| MachineIrreps.ReadSlots | irreptables/__init__.py:315-343 | the slot loop over isym = 1..nsym_group returns exactly the characters and `hasuvw` of the specification, or its error |
| MachineIrreps.EvaluatedValues | irreptables/__init__.py:344-347 | without uvw dependence each character function is replaced by its value at u = v = w = 0, key by key; a function with an empty term raises IndexError |
| MachineIrreps.FinishCharacters | irreptables/__init__.py:344-349 | a finished irrep records `hasuvw`, keeps the keys, has exactly header-nsym characters (the closing assertion), and holds functions or their values at zero |
| MachineIrreps.MachineIrrepCharacters | irreptables/__init__.py:304-349 | a machine irrep's characters are keyed by the present first-half slots and are their functions (with uvw dependence) or the functions' values at zero |
| MachineIrreps.ReadMachineIrrep | irreptables/__init__.py:299-349 | `Irrep(f=f, nsym_group=n)` on the reader returns exactly the irrep the specification reads at the start position and leaves the reader after it, or returns its error |
| MachineIrreps.MachineIrrepProgress | irreptables/__init__.py:304-349 | a record that reads advances the reader; at the end of the file a record raises IndexError |
| Tables.LegacyHeader | irreptables/__init__.py:465-467 | the first line must split into exactly two words, an integer symmetry count and a name; otherwise ValueError |
| Tables.PyPrefix | irreptables/__init__.py:490 | `symmetries[0:n]` is the first n entries for 0 ≤ n ≤ len, all of them for a larger n, all but the last -n for a negative n above -len, and empty otherwise |
| Tables.HashLine | irreptables/__init__.py:469 | the separator check holds iff the stripped line is exactly `#` |
| Tables.SpinorFilterSpec | irreptables/__init__.py:484-487 | the kept irreps are exactly those whose name starts with `-` for a spinor table and the others for a scalar one; the two kinds partition the irreps |
| Tables.ScanEnds | irreptables/__init__.py:472-482 | the record loop succeeds iff the record that stops it raises IndexError; any other error propagates |
| Tables.LegacyIrrepsEnd | irreptables/__init__.py:472-482 | the legacy irreps are read up to the first record that fails, and the table loads only if that failure is IndexError |
| Tables.ReadEach | irreptables/__init__.py:468 | `[SymopTable(f.readline()) for i in range(n)]` returns the n parsed lines or the first error, and consumes n lines |
| Tables.ReadRecord | irreptables/__init__.py:474-477 | one iteration of the record loop: on success it reads an irrep and a separator line and the remaining loop continues from there; on failure the loop ends with the collected irreps on IndexError and with the error otherwise |
| Tables.SkipSeparator | irreptables/__init__.py:477 | reading the separator after a record moves to the next record |
| Tables.ReadIrreps | irreptables/__init__.py:471-482 | the `while True` record loop returns exactly the legacy irreps of the specification |
| Tables.ReadRecords | irreptables/__init__.py:469-490 | after the symmetries: checks `#`, reads NK, reads the records, filters and halves, exactly as the specification |
| Tables.ReadLegacyBody | irreptables/__init__.py:468-490 | reads the symmetries and then the records, exactly as the specification |
| Tables.LoadLegacy | irreptables/__init__.py:453-490 | `IrrepTable(SGnumber, spinor, fromUser=False)` on the file's lines returns exactly LegacyTable |
| Tables.LegacyRecordsShape | irreptables/__init__.py:469-490 | a loaded legacy table passed the `#` check, holds NK, the number and spinor asked for, nsym halved, the first nsym/2 symmetries, and only irreps of the requested kind |
| Tables.LegacyTableShape | irreptables/__init__.py:465-490 | a legacy table loads only if its header and every one of its symmetry lines parse, and then has the shape above |
| SaveTables.KPointOf | irreptables/__init__.py:532 | the k-point built for an irrep has its label and coordinates and indices holding exactly its character keys, ascending |
| SaveTables.LookupSpec | irreptables/__init__.py:542-544 | `kpoints[name]` raises KeyError iff no kept k-point has that name, and otherwise returns the first kept one with that name |
| SaveTables.LookupAppend | irreptables/__init__.py:544 | adding a k-point does not change a name already kept and makes a new name map to it |
| SaveTables.SelectErr | irreptables/__init__.py:530-544 | once the selection loop fails it stays failed |
| SaveTables.VisitIrrep | irreptables/__init__.py:531-544 | one pass of the loop equals one step of the specification: AttributeError on a user irrep, skipping uvw irreps and k-points with a sentinel coordinate, adding a new name, and asserting an old one compares equal |
| SaveTables.SelectKPoints | irreptables/__init__.py:528-545 | the selection loop over all irreps returns exactly Select |
| SaveTables.FirstWith | irreptables/__init__.py:530-544 | the first candidate with a given k-point name: it is a candidate with that name and none before it is |
| SaveTables.FirstsLookup | irreptables/__init__.py:530-546 | the k-point kept for a name is the one of the first candidate with that name |
| SaveTables.FirstsDistinct | irreptables/__init__.py:546 | the kept k-points have distinct names, as dictionary keys do |
| SaveTables.CandidateStep | irreptables/__init__.py:533-544 | a candidate irrep either is the first of its name and is added, or is checked against the first with `==`, with AssertionError when they differ |
| SaveTables.OnlyFirst | irreptables/__init__.py:542-544 | only one irrep is the first candidate of a name |
| SaveTables.SelectSpec | irreptables/__init__.py:528-545 | the selection succeeds iff every irrep has `hasuvw` and every later candidate equals the first of its name; it then keeps, in table order, the k-points of the first candidates of each name |
| SaveTables.SelectSpecCandidate | irreptables/__init__.py:530-544 | the same fact carried across one candidate irrep |
| SaveTables.WithName | irreptables/__init__.py:548-549 | the irreps written under a k-point are exactly the table's irreps at that label |
| SaveTables.WithNameInOrder | irreptables/__init__.py:548-549 | they are written each once and in table order: entry j is the irrep at position idx[j], where idx is strictly increasing and holds exactly the positions with that label |
| SaveTables.SaveLayoutDisjoint | irreptables/__init__.py:546-550 | the written sections have distinct k-point names, no irrep is written under two sections, and each is written under its own k-point |
| SaveTables.SaveLayoutComplete | irreptables/__init__.py:528-550 | the first candidate of every name is written, under its own k-point |
| UserTables.Reversed | irreptables/__init__.py:580 | `readlines()[-1::-1]` keeps the length |
| UserTables.ReversedAt | irreptables/__init__.py:580 | element k of the reversed lines is line n-1-k |
| UserTables.ReversedPop | irreptables/__init__.py:580-609 | popping the reversed rest of the file yields its next line and leaves the reversed rest after it |
| UserTables.Stack.constructor | irreptables/__init__.py:580 | the stack holds the file's lines reversed |
| UserTables.Stack.Pop | irreptables/__init__.py:582 | `list.pop()` on an empty list raises IndexError and leaves it empty; otherwise it returns the last item and removes it |
| UserTables.NeverSG | irreptables/__init__.py:584-585 | a lower-cased key is never `"SG"`, so the space-group assertion is never reached |
| UserTables.HeadStep | irreptables/__init__.py:581-591 | a header line before `symmetries=` only sets `name` or `nsym` (or checks `spinor`) and the loop goes on; a `spinor=` line must read as the requested spinor flag |
| UserTables.HeadAtSymmetries | irreptables/__init__.py:592-603 | at `symmetries=` the header needs `nsym` set and ends with the inner symmetry loop |
| UserTables.SymmetriesSpec | irreptables/__init__.py:595-602 | the inner loop pops lines until nsym have parsed, keeping exactly the lines that parse and ending on one that parses; running out first raises IndexError |
| UserTables.SymmetriesFrom | irreptables/__init__.py:595-602 | from an empty list the loop yields exactly max(nsym, 0) symmetries, the parsing lines in order |
| UserTables.SymmetriesAt | irreptables/__init__.py:581-592 | the first `symmetries=` line from a position, or the end of the file |
| UserTables.LastWith | irreptables/__init__.py:586-589 | the last header line with a given key, or none when no line has it |
| UserTables.HeadSymmetries | irreptables/__init__.py:581-603 | a header that reads ends after the first `symmetries=` line, and its symmetries are the lines after it that parse, nsym of them |
| UserTables.HeadName | irreptables/__init__.py:586-587 | the table's name is the value of the last `name=` line before `symmetries=`, and unset if there is none |
| UserTables.HeadNsym | irreptables/__init__.py:588-589 | `nsym` is the integer of the last `nsym=` line before `symmetries=` |
| UserTables.HeadSpinor | irreptables/__init__.py:590-591 | every `spinor=` line before `symmetries=` matches the requested spinor flag |
| UserTables.ReadSymmetries | irreptables/__init__.py:594-603 | the inner popping loop returns exactly the specification's symmetries and leaves the reversed rest of the file after them |
| UserTables.ReadHead | irreptables/__init__.py:580-603 | the header popping loop returns exactly the specification's name, nsym and symmetries, or its error, and leaves the reversed rest |
| UserTables.Stripped | irreptables/__init__.py:609 | each body line is stripped; stripping keeps the count |
| UserTables.StrippedAt | irreptables/__init__.py:609 | stripped line i is line i stripped |
| UserTables.ReadBodyLine | irreptables/__init__.py:609-619 | one body line: a k-point line becomes the current k-point; another line adds an irrep of the current k-point if it reads as one, and is dropped otherwise |
| UserTables.ReadBody | irreptables/__init__.py:607-619 | the body loop returns exactly the specification's irreps of the stripped rest of the file |
| UserTables.BodyBoundFrom | irreptables/__init__.py:607-619 | the body loop from any line extends what was already bound |
| UserTables.BodyBound | irreptables/__init__.py:607-619 | the body keeps exactly the non-k-point lines that read as irreps of the closest k-point line above them |
| UserTables.UserTableShape | irreptables/__init__.py:568-619 | a user table holds the number and spinor asked for, no NK, the symmetries after `symmetries=` that parse (nsym of them) and the irreps bound to k-points after them |
| UserTables.ReadTable | irreptables/__init__.py:580-619 | reading the reversed stack returns exactly the specification's table |
| UserTables.LoadUser | irreptables/__init__.py:553-619 | `IrrepTable(SG, spinor, fromUser=True)` on the file's lines returns exactly UserTable |

## Left out

- Opening files, building the default file names from the package
  directory and the space-group number, and closing files are not
  modelled. The readers take the file's lines as input.
- `save4user`'s writes to its output file are not modelled: the header,
  the symmetry lines, the `kpoint` lines and the irrep lines. The model
  keeps which k-points are written, in which order, and which irreps go
  under each (`SaveLayout`), together with the line formats each write
  uses (`Symop.Str`, `KPoints.Str`, `Irreps.Str`).
- `SaveLayout` gives only the errors of the selection loop. The errors
  raised while writing are not modelled:
  - `irr.str()` raises `TypeError` for an irrep with `hasuvw` true that
    shares the name of a kept k-point and still holds character functions;
  - `irr.str()` raises `ValueError` for an irrep with no characters;
  - `self.name` raises `AttributeError` in the header, before the
    selection, for a user table without a `name=` line. With at least one
    irrep the selection gives the same error; with none the model gives
    the empty layout.
- `KPoint.show`, `Irrep.show`, `IrrepTable.show`, every `print` and every
  logger call are not modelled. They only write output. The user reader's
  debug line after the header (line 605) is left out as output. Without a
  `symmetries=` line it raises `AttributeError`, which `UserTables.Head`
  gives at the end of the lines. Once the symmetries are set, the model
  assumes that building its text (`str()` of each symmetry) raises
  nothing.
- `np.abs`, `np.angle`, `np.real`, `np.imag`, Python's `str(float)` and
  `str_`, `str2bool` and `str2list_space` from `irrep.__aux` are not part
  of this model. They are fields of `Host`, and an exception from one of
  them is `HelperError`.
- Floating point is modelled as exact reals. Complex characters are
  symbolic and are not rounded. The thresholds 1e-8 (as a squared 1e-16)
  and 1e-6 are compared exactly.
- ParseFloat: accepts ASCII decimal text with an optional sign and
  exponent; `float()` also accepts `inf`, `nan`, underscores between digits
  and non-ASCII decimal digits, which the model rejects.
- ParseInt: rejects underscores between digits (`1_0`) and non-ASCII
  decimal digits, which `int()` accepts.
- Lower: lowers only the ASCII letters A to Z, while `str.lower()` also
  lowers other letters. No key test of the user reader changes: the only
  other letter that lowers to an ASCII letter is the Kelvin sign, which
  gives `k`, and no key it looks for contains `k`.
- HalfTrunc: truncates n/2 exactly, while irreptables divides as a float
  first; the two agree while the count is at most 2^53 in absolute value.
- numpy's `dtype=int` is taken as unbounded. The overflow error of
  integers outside 64 bits is not modelled.
- `EOFError` is never raised. `readline` at the end of a file returns the
  empty string, so the legacy loop ends on `IndexError`.
- `has_rkmk` (line 307) is not stored. Reading `s[3]` cannot fail once
  the rest of the header has read.
- `Irreps.Str`: its `TypeError` for characters that are still character
  functions stands for numpy refusing to take `abs` or `imag` of such an
  object.
- Index lists are compared as lists. `save4user` builds the indices
  from a set of keys, so the model keeps them as the sorted key list. The
  two comparisons agree.
- The sentinel test of `save4user` compares coordinates to the
  seven listed decimals as exact reals, as Python compares floats.
- `Symop.UserReadsStr`, `Irreps.StrReadsBack` and `KPoints.ParseStr`
  state the round trip only for helpers that print each number as one
  token that reads back as a float. `KPoints.ParseStr` also assumes that
  `str2list_space` reads a plain list of integers as `int()` of each word
  (`ReadsPlainLists`). They say nothing about helpers that do not.
