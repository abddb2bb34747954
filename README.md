# mb-tool core, modelled in Dafny

mb-tool is a Modbus client and server for TCP and serial lines. It keeps four
16-bit address spaces per configured unit: holding registers, input registers,
coils and discrete inputs. Each unit's tags come from an XML configuration and
are shown on an XHTML/JSON page that a browser script keeps up to date. This
project models that core and proves properties of it:

- **Range sets** (`range_array.dfy`, `src/range_array.rs`). `union` keeps ranges
  sorted, merged and apart. It is a method with loops, proved against the set of
  points the ranges cover.
- **Interval dictionary** (`range_dict.dfy`, `web/range_dict.js`). A class whose
  `insert` keeps entries sorted by end, each with the minimum start of its
  suffix, and whose `overlapping` lists exactly the stored intervals that
  overlap a query.
- **Observable arrays** (`observable_array.dfy`, `src/observable_array.rs`). The
  area values plus one changed-range set per observer slot.
- **Tag areas and poll ranges** (`tags.dfy`, `tag_ranges.dfy`). The four areas of a
  unit, filled with the configured initial values, and the address ranges the
  client polls.
- **Device tables** (`device_list.dfy`, `devices.dfy`). The configured devices
  by unit, looked up by binary search.
- **Modbus handling** (`modbus_connection.dfy`). The server's bounds checks and
  request dispatch, and the client's read plan, whose every request stays within
  the protocol's limits: 125 registers or 2000 bits per read.
- **Register values** (`register_value.dfy`, `src/register_value.rs`). The
  configured text is turned into register words: integers in two's complement
  with any byte and word order, and strings with a fill byte.
- **Configuration readers** (`xml_common.dfy`, `tag_list_xml.dfy`,
  `device_list_xml.dfy`). The XML readers, with their errors and positions.
- **Page builders** (`tag_list_xhtml.dfy`, `tag_list_json.dfy`). They produce
  the XHTML and JSON descriptions of the tag lists.
- **Browser area updater** (`area_updater.dfy`, `web/modbus.js`). It merges bit
  fields into register words and shows words on the page.

Integers are unbounded. Where the source's 16-bit or 32-bit width matters, it
is written out: JavaScript's 32-bit bitwise operators, `u16` parsing, and
two's complement. Where the source would overflow, the model has a precondition
that excludes the overflow. The lines below give these cases.

Some places follow the code rather than the documented behaviour:

- A word order that is neither "little…" nor "big…" is reported as an invalid
  byte order. `InvalidWordOrder` is never produced (`TagListXml.BadWordOrder`).
- A repeated device address is not an error. The last device in the document
  wins, and `DuplicateAddr` is never produced
  (`DeviceListXml.DevicesLastWins`, `DeviceListXml.DevicesNeverDuplicate`).

Two bounds checks of the Modbus server are corrected in the model; the
code as written is modelled beside them (see "## Findings").

## Model

| member | source | states |
|---|---|---|
| DeviceLists.KeysFrom | src/device_list.rs:24-26 | the key walk of the ordered map yields only stored keys, each at least k, in strictly ascending order |
| DeviceLists.KeysFromComplete | src/device_list.rs:24-26 | the key walk skips no stored key from k upwards |
| DeviceLists.DeviceDefList.constructor | src/device_list.rs:12-14 | a new list holds no devices |
| DeviceLists.DeviceDefList.Insert | src/device_list.rs:16-18 | the device is stored under its own address, replacing an earlier one there; the count grows by one exactly when the address was new; every device stays under its own address |
| DeviceLists.DeviceDefList.Get | src/device_list.rs:20-22 | a device is returned exactly when one is stored under the address, and it is that device, carrying that address |
| DeviceLists.DeviceDefList.Devices | src/device_list.rs:24-26 | every listed device is the one stored under its address, and addresses strictly ascend along the list |
| DeviceLists.DevicesComplete | src/device_list.rs:24-34 | every stored device appears in the listing (and so in iteration over the list) |
| RangeIndex.RangeDict.constructor | web/range_dict.js:2-4 | a new dictionary is empty, sorted by end and with every start_min correct |
| RangeIndex.RangeDict.FindEnd | web/range_dict.js:6-20 | the binary search returns the first position whose end exceeds v: every entry before it ends at or below v, every entry from it on ends above |
| RangeIndex.FirstEndAboveUnique | web/range_dict.js:6-20 | that position is unique, so the search result is determined by the entries |
| RangeIndex.RangeDict.Insert | web/range_dict.js:22-34 | the stored intervals are the old ones with [start, end) and its value spliced in after every entry ending at or below end; entries before only have start_min lowered, entries after are the old ones shifted; the multiset of intervals grows by exactly the new one; the order by end and the start_min invariant are kept |
| RangeIndex.RangeDict.RepairStartMins | web/range_dict.js:29-33 | walking back from the new entry and lowering start_min until an entry already has one low enough restores start_min as the minimum start of each suffix, changing nothing else |
| RangeIndex.SpliceRepairState | web/range_dict.js:24-28 | a spliced entry whose start_min is the lesser of its start and the next start_min leaves every start_min right except possibly before it |
| RangeIndex.RepairStep | web/range_dict.js:29-33 | one turn of the repair loop moves the one possibly wrong position one step back |
| RangeIndex.RepairDone | web/range_dict.js:31 | the loop's break (or reaching the front) leaves every start_min right |
| RangeIndex.SpliceContent | web/range_dict.js:28 | `splice(pos, 0, entry)` puts the interval at pos and adds exactly it to the multiset |
| RangeIndex.InsertOutcome | web/range_dict.js:22-34 | after splice and repair the entries are still sorted by end, the content is the spliced content, earlier start_mins only went down, and later entries are the old ones shifted by one |
| RangeIndex.StartMinIsSuffixMinimum | web/range_dict.js:3 | under the start_min invariant, start_min at i is the least start among entries i and later, and some entry there starts exactly at it |
| RangeIndex.PruneIsSafe | web/range_dict.js:41 | once an entry's start_min is at or beyond end, no entry from there on overlaps [start, end): the early break loses nothing |
| RangeIndex.MatchesExact | web/range_dict.js:42-43 | an interval is in the answer exactly when a stored entry with it overlaps [start, end) |
| RangeIndex.MatchesPrefix | web/range_dict.js:39-46 | entries after a position none of which overlaps add nothing to the answer |
| RangeIndex.RangeDict.Overlapping | web/range_dict.js:36-48 | the result lists exactly the stored intervals that overlap [start, end), in storage order: starting the scan at the first entry ending after start and stopping at the first start_min at or beyond end misses none |
| DeviceTables.ErrorMessage | src/devices.rs:25-33 | both error kinds display as "Unit not available" |
| DeviceTables.Search | src/devices.rs:59-64 | over units sorted without repeats, the binary search finds a position holding the unit, or there is none in the range |
| DeviceTables.FindUnit | src/devices.rs:59-64 | a device is found exactly when some device has the unit, and the one found has it |
| DeviceTables.WithTags | src/devices.rs:66-86 | UnitNotAvailable exactly when no device has the unit; otherwise f applied to the tags of the device with that unit |
| DeviceTables.Ranges | src/devices.rs:87-92 | UnitNotAvailable exactly when no device has the unit; otherwise the poll ranges of that device |
| DeviceTables.Units | src/devices.rs:100-103 | the unit numbers of the devices, in their order, strictly ascending |
| DeviceTables.NewDevice | src/devices.rs:46-52 | fresh tag areas and poll ranges, initialised from the definition's tags, with the definition's address as unit |
| DeviceTables.AddDevice | src/devices.rs:41-54 | one turn of the loop builds the next device and leaves the devices already built as they were |
| DeviceTables.BuildDevices | src/devices.rs:40-54 | one freshly built device per definition, in the definitions' order, each built from its own definition, no two sharing an area |
| DeviceTables.NewDevices | src/devices.rs:39-57 | the devices are those of the definition list in ascending address order, so units are sorted without repeats and `sort_by_key` has nothing to move; each is freshly built from its definition, so no two devices share an area |
| TagStores.Overwrite | src/tags.rs:35 | `update(at, data)` on the elements: positions at..at+len hold data, every other position keeps its value |
| TagStores.Encoded | src/tags.rs:32-41 | a register writes words exactly when it has an initial value and `register_value::parse` accepts it; those words are the parse result, one per register of the range, inside the area |
| TagStores.InitialRegisters | src/tags.rs:31-56 | the register loop over the flattened tags keeps the area at 65536 words |
| TagStores.InitialBits | src/tags.rs:58-69 | the bit loop keeps the area at 65536 bits |
| TagStores.RegisterUntouched | src/tags.rs:31-56 | an address that no register with a parsed initial value covers keeps its value |
| TagStores.RegisterWritten | src/tags.rs:31-56 | a register whose initial value parses holds its word at every address of its range, at address_low plus the group base, unless a later register writes there |
| TagStores.BitUntouched | src/tags.rs:58-69 | an address at which no configured bit sits keeps its value |
| TagStores.BitWritten | src/tags.rs:58-69 | a bit holds its initial value, false when it has none, unless a later bit shares its address |
| TagStores.WriteRegisters | src/tags.rs:31-56 | the loop's `update` calls leave the area's elements equal to the register loop applied to the old ones, and its observer list unchanged |
| TagStores.WriteBits | src/tags.rs:58-69 | the loop's `update` calls leave the area's elements equal to the bit loop applied to the old ones, and its observer list unchanged |
| TagStores.NewRegisterArea | src/tags.rs:26-56 | a fresh area of zeros with the handle's own observer slot, then filled by the register loop |
| TagStores.NewBitArea | src/tags.rs:28-69 | a fresh area of false bits with the handle's own observer slot, then filled by the bit loop |
| TagStores.Tags.constructor | src/tags.rs:25-77 | four fresh, distinct areas of 65536 elements; holding and input registers hold the encoded initial values of their tags, coils and discrete inputs the initial bits |
| ObservableArrays.Base.constructor | src/observable_array.rs:27-35 | `size` default elements and no observers |
| ObservableArrays.Base.GetObserver | src/observable_array.rs:37-53 | the new observer, with no changes, takes the lowest released slot, or a new slot at the end when every slot is live; nothing else changes |
| ObservableArrays.Base.Release | src/observable_array.rs:55-57 | that slot is released and no other slot changes |
| ObservableArrays.Base.Update | src/observable_array.rs:59-69 | the elements are overwritten from start with data and nothing else; every live observer other than exclude now also has start..start+len marked as changed, released slots stay released, and exclude's changes are untouched |
| ObservableArrays.Base.TakeChanges | src/observable_array.rs:133 | the observer's changed ranges are handed over, merged and sorted, and its slot is left live with none |
| RangeArrays.SetMax | src/range_array.rs:13-20 | the larger of the two values |
| RangeArrays.SearchStart | src/range_array.rs:31 | `binary_search_by` on the starts: the position of a range starting at s, or the position where such a range would go, with every start before it smaller and every start from it on larger |
| RangeArrays.WidenStep | src/range_array.rs:32-39 | widening the range at p (or p - 1) to r's end covers exactly the old points and r's, and can only break the order at p's end; a range widened this way was not apart from every stored range |
| RangeArrays.InsertStep | src/range_array.rs:40-47 | inserting r at its sorted position, clear of the range before it, covers exactly the old points and r's and can only break the order at r's end |
| RangeArrays.WidenPlacement | src/range_array.rs:32-39 | the two widening branches reach that state |
| RangeArrays.InsertPlacement | src/range_array.rs:40-47 | the insert and push branches reach that state, `pushed` exactly at the end |
| RangeArrays.Place | src/range_array.rs:31-50 | the range holding r sits at p, every other range is still apart and in order, exactly the old points and r's are covered, and a range apart from all stored ones is inserted unchanged at its sorted position |
| RangeArrays.AbsorbStep | src/range_array.rs:55-63 | one turn of the merge loop: the range at p covers exactly the ranges from p up to i |
| RangeArrays.AbsorbDoneCanonical | src/range_array.rs:65-67 | after the loop stops, draining the absorbed ranges leaves every range ending before the next one starts |
| RangeArrays.AbsorbDoneCovers | src/range_array.rs:65-67 | draining them keeps exactly the covered points |
| RangeArrays.Absorb | src/range_array.rs:52-67 | the merge loop and drain leave the ranges sorted and apart, covering exactly what they covered before; when the range after p already starts beyond p's end nothing changes |
| RangeArrays.UnionInto | src/range_array.rs:30-68 | `union`: the ranges stay sorted by start with each ending before the next starts, they cover exactly the old points and those of r, well-formed and non-empty ranges stay so, and a range apart from all stored ranges is inserted unchanged |
| RangeArrays.CanonicalUnique | src/range_array.rs:30-68 | two sorted, apart arrays of non-empty ranges covering the same points are equal, so what `union` stores is determined by the points covered |
| RangeArrays.UnionTestFinal | src/range_array.rs:143-151 | the test's final expectation: an array in that form covering exactly -7..12 is the single range -7..12 |
| RangeArrays.RangeArray.constructor | src/range_array.rs:26-28 | no ranges, no covered point |
| RangeArrays.RangeArray.Union | src/range_array.rs:30-68 | as UnionInto, on the stored vector |
| RangeArrays.RangeArray.ClearInto | src/range_array.rs:70-74 | the new array takes the stored ranges and this one is left empty |
| RangeArrays.RangeArray.IsEmpty | src/range_array.rs:76-78 | true exactly when no range is stored; with non-empty ranges, exactly when no point is covered |
| RangeArrays.RangeArray.Iter | src/range_array.rs:90-99 | the stored ranges, in ascending start order |
| TagRangeSets.TagRanges.constructor | src/tag_ranges.rs:13-20 | all four sets empty |
| TagRangeSets.CoverRegisters | src/tag_ranges.rs:36-41 | the union loop over one register area yields ranges in merged form covering exactly the addresses address_low..=address_high of its registers |
| TagRangeSets.CoverBits | src/tag_ranges.rs:42-47 | the union loop over one bit area yields ranges in merged form covering exactly the addresses of its bits |
| TagRangeSets.TagRanges.FromTagList | src/tag_ranges.rs:31-50 | each of the four sets is in merged form and covers exactly the addresses of that area's tags |
| ModbusConnection.ServerRead | src/modbus_connection.rs:35-54 | a read succeeds exactly when start + count lies within the area; it then returns those count elements in order, and otherwise IllegalDataAddress (corrected: the slice end is not a `u16` sum) |
| ModbusConnection.ServerReadAsWritten | src/modbus_connection.rs:46-52 | as written, the read panics exactly when the bounds check passes with start + count at least 0x10000; in every other case it agrees with ServerRead |
| ModbusConnection.LastRegisterRead | src/modbus_connection.rs:47-48 | reading register 65535 of a unit panics as written, while the corrected server replies with that register |
| ModbusConnection.ServerWrite | src/modbus_connection.rs:56-73 | a write succeeds exactly when start lies within the area and the data ends within it (corrected: the source checks only start); the data then replaces the elements from start on, every other element stays, every other handle is marked with the written range, and the echo is (start, data); otherwise IllegalDataAddress and nothing changes |
| ModbusConnection.ServerWriteAsWritten | src/modbus_connection.rs:67-72 | as written, a write panics in the element copy of `update` exactly when start lies within the area and the data runs past its end; it is IllegalDataAddress exactly when start is outside the area; otherwise the data replaces its segment and the rest is kept |
| ModbusConnection.WritePastEnd | src/observable_array.rs:59-60 | WriteMultipleRegisters(65535, [1, 2]) panics as written, while the corrected server refuses it with IllegalDataAddress and changes nothing |
| ModbusConnection.Call | src/modbus_connection.rs:82-169 | an unsupported function is IllegalFunction, a supported one for a unit that is not configured is ServerDeviceFailure, and otherwise the unit's areas are read or written as the request says, with the matching reply, every other handle on a written area marked with the written range; every area of every other unit, and every area after an unsupported function, keeps its elements and its handles; every area stays valid (the areas of distinct devices are distinct objects, which DeviceTables.NewDevices establishes) |
| ModbusConnection.Serve | src/modbus_connection.rs:88-161 | each of the eight supported functions reads or updates its own area of the addressed unit and leaves the others alone; a multiple write that runs past the end of the area is IllegalDataAddress and changes nothing; a write that succeeds marks the written range for every handle but the service's own and touches no handle of the other area; the areas stay valid |
| ModbusConnection.Chunks | src/modbus_connection.rs:318-330 | an empty range gives no pieces and a non-empty one at least one |
| ModbusConnection.ChunksBounded | src/modbus_connection.rs:318-330 | every piece of push_range holds between 1 and max_len elements and lies inside the range |
| ModbusConnection.ChunksFull | src/modbus_connection.rs:318-330 | every piece but the last holds exactly max_len elements |
| ModbusConnection.ChunksContiguous | src/modbus_connection.rs:318-330 | the pieces start at range.start, each starts where the one before ends, and the last ends at range.end |
| ModbusConnection.ChunksCover | src/modbus_connection.rs:318-330 | every address of the range lies in some piece |
| ModbusConnection.ChunkOpsPieces | src/modbus_connection.rs:318-330 | the requests pushed are f applied to the pieces, one request per piece, in order |
| ModbusConnection.PushRange | src/modbus_connection.rs:318-330 | the while loop appends exactly the requests for the pieces of the range |
| ModbusConnection.PushRanges | src/modbus_connection.rs:336-355 | one `for range` loop appends the requests for every range of the area, range after range |
| ModbusConnection.MaxLen | src/modbus_connection.rs:216-217 | the limits 125 and 2000 are positive and fit in 16 bits |
| ModbusConnection.MakeOp | src/modbus_connection.rs:207-214 | the request built carries the unit, start, length and area it was made for |
| ModbusConnection.PollSetOf | src/tag_ranges.rs:6-11 | the poll set holds the four range sets of a TagRanges unchanged |
| ModbusConnection.PollSets | src/modbus_connection.rs:334-335 | one poll set per device, in order, each the unit with its ranges |
| ModbusConnection.PollSetsLookup | src/modbus_connection.rs:334-335 | the k-th poll set is the k-th unit of `units()` and the ranges `ranges(unit)` returns for it |
| ModbusConnection.PushArea | src/modbus_connection.rs:336-355 | one area loop of one unit appends exactly that area's requests |
| ModbusConnection.PushUnit | src/modbus_connection.rs:334-356 | the four area loops of one unit append holding registers, input registers, coils, then discrete inputs |
| ModbusConnection.ReadSequence | src/modbus_connection.rs:332-358 | the sequence is the plan of every unit in `units()` order |
| ModbusConnection.ChunkOpsAllowed | src/modbus_connection.rs:216-217 | every request made for a range asks for 1 to 125 registers or 1 to 2000 bits of its own area and unit, within the 16-bit address space |
| ModbusConnection.RangeOpsAllowed | src/modbus_connection.rs:336-355 | every request made for an area of a unit is allowed |
| ModbusConnection.UnitOpsAllowed | src/modbus_connection.rs:334-356 | every request made for one unit is allowed |
| ModbusConnection.PlanAllowed | src/modbus_connection.rs:332-358 | every request of the read sequence is one the protocol allows |
| Numbers.RadixString | src/tag_list_xhtml.rs:66-72 | the digits of a number are at least one character and never a sign or underscore |
| Numbers.DecimalString | src/xml_common.rs:25-29 | `{}` of an unsigned number is at least one character, all decimal digits |
| Numbers.DecimalIsRadix10 | src/xml_common.rs:25-29 | decimal text is the base-10 digit text |
| Numbers.DigitOf | src/tag_list_xml.rs:271-277 | a digit read in some radix is below that radix |
| Numbers.ScanDigits | src/tag_list_xml.rs:271-277 | the digit loop yields a value below the type's bound, and its errors are never Empty |
| Numbers.ParseUnsigned | src/tag_list_xml.rs:271-277 | `from_str_radix`/`parse` for an unsigned type: a result below the bound; Empty exactly for the empty text; a lone "+" is not a number |
| Numbers.ScanRadixString | src/tag_list_xml.rs:271-277 | the digit loop reads the digit text of a number back as the number |
| Numbers.DigitOfChar | src/tag_list_xml.rs:271-277 | each digit character is read back as its digit |
| Numbers.RadixRoundTrip | src/tag_list_xml.rs:271-277 | parsing the digit text of a number that fits gives the number |
| Numbers.DecimalRoundTrip | src/xml_common.rs:25-29 | parsing decimal text of a number that fits gives the number |
| Numbers.ScanRadixOverflow | src/tag_list_xml.rs:271-277 | the digit loop stops with PosOverflow on the digits of a number that does not fit |
| Numbers.RadixOverflow | src/tag_list_xml.rs:271-277 | parsing the digit text of a number that does not fit is PosOverflow |
| RegisterValue.ErrorMessage | src/register_value.rs:17-29 | every error displays a non-empty message |
| RegisterValue.LeBytes | src/register_value.rs:104-111 | the fixed-width little-endian bytes of a number have the width asked for |
| RegisterValue.LeBytesValue | src/register_value.rs:104-111 | fixed-width bytes hold the number back whenever it is below 256^width |
| RegisterValue.LeValueBytes | src/register_value.rs:104-111 | every byte sequence is the fixed-width bytes of the number it holds |
| RegisterValue.LeValueBound | src/register_value.rs:104-111 | n bytes hold a number below 256^n |
| RegisterValue.ToBytesLe | src/register_value.rs:104 | `to_bytes_le` gives bytes that hold the number, at least one, with no zero high byte beyond the first |
| RegisterValue.ToBytesLeFits | src/register_value.rs:105-107 | the minimal bytes fit in n bytes exactly when the number is below 256^n, so the TooBig check is a range check |
| RegisterValue.PadToWidth | src/register_value.rs:108-111 | padding the minimal bytes with zeros gives the fixed-width bytes of the number |
| RegisterValue.WordsFromLe | src/register_value.rs:45-68 | the packing gives one word per byte pair |
| RegisterValue.LeFromWords | src/register_value.rs:45-68 | unpacking gives two bytes per word |
| RegisterValue.BytesRoundTrip | src/register_value.rs:45-68 | unpacking the packed words gives the bytes back, for all four byte and word orders |
| RegisterValue.WordsRoundTrip | src/register_value.rs:45-68 | packing the unpacked bytes gives the words back |
| RegisterValue.BuildWordsFromLe | src/register_value.rs:45-68 | the iterator loop of `build_words_from_le` yields exactly the packed words |
| RegisterValue.BigUintRoundTrip | src/register_value.rs:98 | `BigUint::from_str_radix` reads back every number written in its radix |
| RegisterValue.MagnitudeRoundTrip | src/register_value.rs:84-98 | text written as an optional `-`, a `0x`/`0b`/no prefix and the digits reads back as that sign and number |
| RegisterValue.Utf8 | src/register_value.rs:143-144 | the UTF-8 bytes of a text are at least as many as its characters |
| RegisterValue.Utf8Ascii | src/register_value.rs:143-144 | ASCII text is one byte per character, its code |
| RegisterValue.StringWords | src/register_value.rs:139-158 | a string value fills exactly the configured number of words |
| RegisterValue.StringBytes | src/register_value.rs:139-158 | reading string words back gives two bytes per word |
| RegisterValue.StringRoundTrip | src/register_value.rs:139-158 | reading the words back gives the text's bytes and then the fill byte, for exactly twice the word count |
| RegisterValue.TwosComplement | src/register_value.rs:113-124 | the carry loop leaves the length alone and turns the bytes of v into those of 256^n - v modulo 256^n |
| RegisterValue.NegatedCases | src/register_value.rs:113-124 | minus zero is zero; minus any other v below 256^n is 256^n - v |
| RegisterValue.Parse | src/register_value.rs:70-162 | `parse` computes what its specification says for every register range, text and float reading |
| RegisterValue.ParseInteger | src/register_value.rs:75-126 | the integer branch: read, check the sign, check the size, pad, negate and order as specified |
| RegisterValue.IntegerBytes | src/register_value.rs:104-124 | the padded, possibly negated bytes are the value (or minus it) in width bytes of two's complement |
| RegisterValue.ParseString | src/register_value.rs:139-159 | the string branch gives the specified filled words |
| RegisterValue.ParseSpec | src/register_value.rs:70-162 | a value that parses fills exactly address_high - address_low + 1 registers; a string value always parses; Negative only for an unsigned integer; TooBig only for an integer; InvalidFloatLength exactly for a float that is neither 2 nor 4 registers |
| RegisterValue.FloatLength | src/register_value.rs:127-138 | a float fails with InvalidFloatLength exactly when the range is neither 2 nor 4 registers |
| RegisterValue.IntegerStored | src/register_value.rs:101-126 | a negative value for an unsigned range is Negative, a value that does not fit is TooBig, and otherwise unpacking the words gives the value (or its two's complement) back |
| RegisterValue.IntegerRoundTrip | src/register_value.rs:84-126 | an unscaled integer written with sign, radix prefix and digits is refused or stored as IntegerStored says |
| RegisterValue.Example8933224 | src/register_value.rs:196-202 | 8933224 on two registers gives the four words of the unit test in the four order combinations |
| RegisterValue.ExampleOrder | src/register_value.rs:196-202 | each order combination of the unit test's first example |
| RegisterValue.ExampleNegativeBinary | src/register_value.rs:224-227 | -0b0001010011100110 on one signed register is its 16-bit two's complement |
| RegisterValue.ExampleMinusZero | src/register_value.rs:218 | -0b0 on five signed registers is five zero words |
| AreaUpdaters.ToBitsFromBits | web/modbus.js:34 | a 32-bit result of a bitwise operator, used again as an operand, keeps its bits |
| AreaUpdaters.FieldRoundTrip | web/modbus.js:67 | on bits: extracting field low..=high of a merge gives the low bits of the value written |
| AreaUpdaters.Merge | web/modbus.js:31-35 | the change handler's merge: every bit under the field mask low..=high is the bit of the value shifted to low, every bit outside it is the bit of the known word |
| AreaUpdaters.MergeExtract | web/modbus.js:33-34 | `update_value`'s extraction of a merged field gives the low high-low+1 bits of the value written |
| AreaUpdaters.Filter | web/modbus.js:10-18 | the inputs collected for an address are exactly the inputs with that address |
| AreaUpdaters.ByAddressFilter | web/modbus.js:10-18 | `value_map` has an entry exactly for the addresses some input has, each listing its inputs in page order |
| AreaUpdaters.Applied | web/modbus.js:117-134 | after a message, every address of the message holds its word, every other known address keeps its word |
| AreaUpdaters.Document.constructor | web/modbus.js:62 | the document's focus is the element given |
| AreaUpdaters.Input.constructor | web/modbus.js:23-24 | the element's address, field, kind and starting state |
| AreaUpdaters.AreaUpdater.constructor | web/modbus.js:7-55 | the updater groups its elements by address, knows no word and has sent nothing |
| AreaUpdaters.AreaUpdater.UpdateValue | web/modbus.js:57-85 | the word is recorded for the address; every input of that address except the focused one shows it (its field, for a field input); nothing else changes |
| AreaUpdaters.AreaUpdater.Change | web/modbus.js:22-46 | the change handler sends `{start: addr, regs: [word]}` for the word made from the input and the known word, then shows it as `update_value` does |
| AreaUpdaters.AreaUpdater.Blur | web/modbus.js:47-52 | the blur handler shows the known word again when there is one and otherwise changes nothing |
| AreaUpdaters.AreaUpdater.ApplyWords | web/modbus.js:120-126 | one `for (v of regs)` loop records and shows each word at its address, in order |
| AreaUpdaters.OnMessage | web/modbus.js:117-136 | the holding-register payload goes to the holding updater and the input-register payload to the input updater: each updater's known words are the payload applied to the old ones, every writable input whose address the payload covers shows the new word at its address, every other input keeps its value and checked state; nothing is sent |
| AreaUpdaters.ApplyPayload | web/modbus.js:117-136 | one optional payload applied to one updater: its known words are the payload written over the old ones, the covered writable inputs show their words, every other input is unchanged, nothing is sent |
| DeviceListXml.FromTag | src/device_list_xml.rs:11-18 | a tag-list error keeps its position and its kind is wrapped in `Base` |
| DeviceListXml.FromXml | src/device_list_xml.rs:20-27 | a shared parser error keeps its position and its kind is wrapped twice |
| DeviceListXml.FromXmlThroughTag | src/device_list_xml.rs:11-27 | converting a shared error directly equals converting it through the tag-list error |
| DeviceListXml.DeviceKindText | src/device_list_xml.rs:36-46 | a wrapped kind displays as the kind it wraps |
| DeviceListXml.LiftXml | src/device_list_xml.rs:68 | `?` on a shared parser result keeps success and value, and converts the error |
| DeviceListXml.LiftTag | src/device_list_xml.rs:69 | `?` on a tag-list result keeps success and value, and converts the error |
| DeviceListXml.ParsedU8 | src/device_list_xml.rs:48-59 | an address that reads is what the tag-address parser reads from the same text; without '-' or "0b", a text the tag-address parser reads below 256 reads the same |
| DeviceListXml.ParsedU8Plain | src/device_list_xml.rs:48-59 | text without "0x" is read exactly as decimal `u8` parsing reads it, error for error |
| DeviceListXml.ParsedU8Decimal | src/device_list_xml.rs:48-59 | the decimal text of an address reads back as that address |
| DeviceListXml.ParsedU8Hex | src/device_list_xml.rs:48-59 | "0x" and the hexadecimal digits of an address read back as that address |
| DeviceListXml.ParsedU8TooLarge | src/device_list_xml.rs:48-59 | a number above 255 is PosOverflow, in either notation |
| DeviceListXml.ParsedU8Negative | src/device_list_xml.rs:48-59 | an address written with '-' is InvalidDigit |
| DeviceListXml.DeviceOf | src/device_list_xml.rs:67-72 | a device parses exactly when its address and its tag list do, and holds those two; a missing address is reported before anything in the tag list |
| DeviceListXml.ParseDevice | src/device_list_xml.rs:67-72 | `parse_device` gives what DeviceOf says |
| DeviceListXml.ParseDeviceList | src/device_list_xml.rs:74-94 | the child loop succeeds exactly when the list parses, and then yields a fresh, valid device list holding exactly the devices parsed; otherwise the first error |
| DeviceListXml.DevicesStep | src/device_list_xml.rs:76-91 | in a list that parses, an element child is a `device` that parses and is inserted under its address, and anything else is skipped |
| DeviceListXml.DevicesAccepted | src/device_list_xml.rs:76-91 | every child of a list that parses is a `device` element or whitespace |
| DeviceListXml.DevicesHeld | src/device_list_xml.rs:76-91 | a list that parses holds an address exactly when some device child has it |
| DeviceListXml.DevicesAddresses | src/device_list_xml.rs:76-91 | both of the above at once |
| DeviceListXml.DevicesUntouched | src/device_list_xml.rs:76-91 | children without a device of an address leave what is stored under it alone |
| DeviceListXml.DevicesLastWins | src/device_list_xml.rs:76-91 | of several devices with the same address, the last one in the document is the one kept |
| DeviceListXml.DevicesNeverDuplicate | src/device_list_xml.rs:29-33 | every error of the list is a wrapped one: DuplicateAddr is never produced |
| TagListXml.FromBase | src/tag_list_xml.rs:15-22 | a shared parser error keeps its position and its kind is wrapped in `Base` |
| TagListXml.Lifted | src/tag_list_xml.rs:15-22 | `?` on a shared parser result keeps success and value, and converts the error |
| TagListXml.TagKindText | src/tag_list_xml.rs:35-52 | a wrapped kind displays as the kind it wraps |
| TagListXml.OptionalText | src/tag_list_xml.rs:173 | reading an optional text attribute never fails |
| TagListXml.ParsedBit | src/tag_list_xml.rs:245-255 | "1" and "true" are true, "0" and "false" are false, everything else is an error |
| TagListXml.DigitsValue | src/tag_list_xml.rs:55 | a run of characters has a decimal value exactly when all of them are digits |
| TagListXml.IndexOf | src/tag_list_xml.rs:55 | the first position of a character, or none exactly when it does not occur |
| TagListXml.ParseF32 | src/tag_list_xml.rs:55 | the empty text is the library's empty-string error |
| TagListXml.DigitsValueDecimal | src/tag_list_xml.rs:55 | the decimal digits of a number read back as the number |
| TagListXml.ParseF32Integer | src/tag_list_xml.rs:55 | a scale written as a whole decimal number reads as that number |
| TagListXml.ParsedU16Plain | src/tag_list_xml.rs:263-282 | text without a sign or radix prefix is read as decimal `u16` |
| TagListXml.ParsedU16Decimal | src/tag_list_xml.rs:263-282 | the decimal text of an address reads back as that address |
| TagListXml.ParsedU16Hex | src/tag_list_xml.rs:263-282 | "0x" and hexadecimal digits read back as the number |
| TagListXml.ParsedU16Binary | src/tag_list_xml.rs:263-282 | "0b" and binary digits read back as the number |
| TagListXml.ParsedU16Negative | src/tag_list_xml.rs:263-282 | a '-' before a magnitude gives its 16-bit two's complement |
| TagListXml.ParsedU16MinusOne | src/tag_list_xml.rs:263-282 | "-1" is 0xFFFF and "-0" is 0 |
| TagListXml.ParsedU16 | src/tag_list_xml.rs:263-282 | a leading '-' reads exactly when the rest reads, and the two results add up to 0 modulo 65536 |
| TagListXml.ParsePresentation | src/tag_list_xml.rs:54-65 | scale 1, radix 10 and 2 decimals unless given, and each one given is the value its attribute reads as; the unit as written; an error exactly when an attribute given does not read, positioned at the node |
| TagListXml.PresentationReadBack | src/tag_list_xml.rs:54-65 | radix, decimals, scale and unit written as attributes read back as that presentation |
| TagListXml.OrderOf | src/tag_list_xml.rs:68-91 | "little…" is little-endian, else "big…" is big-endian, else neither |
| TagListXml.ValueTypeOf | src/tag_list_xml.rs:92-116 | with no value type or "integer": "signed" true is signed, false or absent unsigned, anything else InvalidSign; "float" is Float; "string" is String with the fill read, 0 when absent, and its error when it does not read; any other value type is exactly InvalidValueType; every error is positioned at the node |
| TagListXml.ValueTypeAttributes | src/tag_list_xml.rs:92-116 | the attributes that describe a value type always name it |
| TagListXml.ValueTypeReadBack | src/tag_list_xml.rs:92-116 | every value type written as attributes reads back as itself |
| TagListXml.ParseEncoding | src/tag_list_xml.rs:67-123 | each order is little exactly when its attribute starts with "little"; a bad byte order is InvalidByteOrder; the value type is ValueTypeOf's; errors sit at the node |
| TagListXml.EncodingDefaults | src/tag_list_xml.rs:67-123 | with no encoding attributes the encoding is an unsigned big-endian integer |
| TagListXml.BadWordOrder | src/tag_list_xml.rs:80-91 | a word order that is neither little nor big is reported as InvalidByteOrder |
| TagListXml.ParseEnum | src/tag_list_xml.rs:125-129 | an enum parses exactly when label and a readable value are present, and holds them |
| TagListXml.ParseBit | src/tag_list_xml.rs:290-301 | a bit parses exactly when its address reads and its optional attributes do; it holds that address, and an initial value exactly when one was given |
| TagListXml.FieldHeader | src/tag_list_xml.rs:132-140 | `bit` alone gives a one-bit field, `bit-low` with `bit-high` the range, and every other combination is BitRange |
| TagListXml.RegisterHeader | src/tag_list_xml.rs:163-177 | a `register` has addr as both ends, a `register-range` has addr-low and addr-high, and neither has fields or enums yet |
| TagListXml.Unexpected | src/tag_list_xml.rs:150 | the error for a misplaced element sits at that element and is UnexpectedElement |
| TagListXml.ParseRegisterField | src/tag_list_xml.rs:131-161 | `parse_register_field` gives what RegisterFieldOf says |
| TagListXml.ParseRegister | src/tag_list_xml.rs:163-205 | `parse_register` gives what RegisterOf says |
| TagListXml.ParseRegistersOrGroups | src/tag_list_xml.rs:220-243 | the child loop gives what RegisterItems says |
| TagListXml.ParseRegGroup | src/tag_list_xml.rs:207-218 | `parse_reg_group` gives what RegisterGroupOf says |
| TagListXml.ParseBitsOrGroups | src/tag_list_xml.rs:315-334 | the child loop gives what BitItems says |
| TagListXml.ParseBitGroup | src/tag_list_xml.rs:302-313 | `parse_bit_group` gives what BitGroupOf says |
| TagListXml.ParseTagList | src/tag_list_xml.rs:336-370 | the child loop gives what TagListOf says |
| TagListXml.Elements | src/tag_list_xml.rs:220-243 | the element children, each of them an element, and every element child among them |
| TagListXml.RegisterItemsShape | src/tag_list_xml.rs:220-243 | a register list that parses has only `register`, `register-range`, `group` and whitespace children, and one item per element child, in order, a group exactly for `group` |
| TagListXml.RegisterItemsAccepted | src/tag_list_xml.rs:220-243 | every child of a register list that parses is accepted there |
| TagListXml.RegisterItemsMatched | src/tag_list_xml.rs:220-243 | the items of a register list match its element children one to one, in order |
| TagListXml.BitItemsShape | src/tag_list_xml.rs:315-334 | a bit list that parses has only `bit`, `group` and whitespace children, and one item per element child, in order |
| TagListXml.BitItemsAccepted | src/tag_list_xml.rs:315-334 | every child of a bit list that parses is accepted there |
| TagListXml.BitItemsMatched | src/tag_list_xml.rs:315-334 | the items of a bit list match its element children one to one, in order |
| TagListXml.TagListStep | src/tag_list_xml.rs:341-363 | each section child replaces what was stored for its own name and no other |
| TagListXml.TagListSections | src/tag_list_xml.rs:336-370 | a tag list that parses has only the four sections and whitespace as children, and a section that does not appear is empty |
| TagListXml.TagListAccepted | src/tag_list_xml.rs:341-363 | every child of a tag list that parses is a section or whitespace |
| TagListXml.TagListAbsent | src/tag_list_xml.rs:341-369 | a section that does not appear keeps what was found before |
| TagListJson.PresentationMembers | src/tag_list_json.rs:25-38 | `presentation_attributes` adds scale, radix, decimals and the unit when there is one, leaves every other member alone, and the presentation can be read back |
| TagListJson.ValueTypeMembers | src/tag_list_json.rs:44-56 | the value type's name is added with the sign for an integer and the fill for a string, and nothing else changes |
| TagListJson.ValueTypeReadBack | src/tag_list_json.rs:44-56 | the value type is read back from what was added |
| TagListJson.EncodingMembers | src/tag_list_json.rs:40-73 | `encoding_attributes` adds the value type members and both orders and leaves every other member alone |
| TagListJson.EncodingReadBack | src/tag_list_json.rs:40-73 | the encoding is read back from what was added |
| TagListJson.KeysDisjoint | src/tag_list_json.rs:185-229 | the address, presentation and encoding members of a register object have different names |
| TagListJson.RegisterAddressMembers | src/tag_list_json.rs:188-203 | "addr" exactly for a single register, "rel" exactly for a single register under a non-zero base, absolute "addr_low"/"addr_high", the written range as "rel_low"/"rel_high" under a non-zero base, and the label when there is one |
| TagListJson.RegisterTagValue | src/tag_list_json.rs:185-229 | a register tag is an object with only register names, its address members as above |
| TagListJson.RegisterTagReadBack | src/tag_list_json.rs:185-229 | the presentation and the encoding are read back from a register object |
| TagListJson.BitTagValue | src/tag_list_json.rs:231-244 | a bit tag holds its absolute address, the address as written under a non-zero base, and its label when it has one, and nothing else |
| TagListJson.WalkItemsAppend | src/tag_list_json.rs:265-283 | reading the tags out of two item lists one after the other is reading them out of each in turn |
| TagListJson.Values | src/tag_list_json.rs:265-283 | one tag value per placed tag, built with that tag's base |
| TagListJson.ValuesAppend | src/tag_list_json.rs:265-283 | the values of two placed lists one after the other are the values of each in turn |
| TagListJson.BuildGroup | src/tag_list_json.rs:246-263 | a group object holds its absolute address, the address as written under a non-zero base, its label, and children whose tags read back are the walk of the group with its base added |
| TagListJson.BuildSubList | src/tag_list_json.rs:265-283 | one item per tag or group, in order, each a "tag" or "group" object as it should be, and the tags read back are the walk of `tag_iter` |
| TagListJson.BuildItem | src/tag_list_json.rs:270-280 | one item: a tag's value or a group built at the current base |
| TagListJson.BuildRegisterList | src/tag_list_json.rs:285-288 | the k-th register read back is the k-th register of the walk, at its absolute addresses |
| TagListJson.BuildBitList | src/tag_list_json.rs:290-293 | the k-th bit read back is the k-th bit of the walk, at its absolute address |
| TagListXhtml.Sink.constructor | src/tag_list_xhtml.rs:296-304 | a new sink has nothing written |
| TagListXhtml.Sink.Write | src/tag_list_xhtml.rs:74-86 | one `write!` appends its chunk and keeps everything written before |
| TagListXhtml.NumberText | src/tag_list_xhtml.rs:66-72 | `{}` of a number starts with '-' exactly when it is negative, and its digits read back as the magnitude |
| TagListXhtml.AddrToString | src/tag_list_xhtml.rs:66-72 | the absolute address is printed first; there is more exactly when the base is not 0, and then the text ends with ')' |
| TagListXhtml.PresentationAttributes | src/tag_list_xhtml.rs:14-27 | the scale attribute first, radix and decimals last, and between them the unit attribute exactly when there is a unit |
| TagListXhtml.EncodingAttributes | src/tag_list_xhtml.rs:29-64 | the value-type attribute first, the byte-order and word-order attributes last, each followed by a space, and between them the sign of an integer, the fill of a string, or nothing for a float |
| TagListXhtml.AddrToStringReadBack | src/tag_list_xhtml.rs:66-72 | at base 0 the text reads back as the address; under a group the digits before " (" read back as the absolute address and those inside the parentheses as the address as written |
| TagListXhtml.DecimalReadBack | src/tag_list_xhtml.rs:66-72 | the digits written for a number read back as the number |
| TagListXhtml.GroupAddrReadBack | src/tag_list_xhtml.rs:66-72 | the two numbers of "absolute (as written)" read back from their places |
| TagListXhtml.InputType | src/tag_list_xhtml.rs:94-112 | "integer" exactly for an integer in radix 10, "number" exactly for a float or an unencoded field in radix 10, "text" otherwise |
| TagListXhtml.BuildInputField | src/tag_list_xhtml.rs:88-125 | one input element is written, with its type, binding, presentation and encoding attributes |
| TagListXhtml.OptionsInOrder | src/tag_list_xhtml.rs:74-86 | between the select and its end come only options, one per enum, in order, each with its value and escaped label |
| TagListXhtml.BuildEnumField | src/tag_list_xhtml.rs:74-86 | the select, the options and the end of the select are written, in that order |
| TagListXhtml.BuildField | src/tag_list_xhtml.rs:127-171 | the field item, bits, label, input, checkbox for a single bit, enums and end of item are written as specified |
| TagListXhtml.FieldPicked | src/tag_list_xhtml.rs:127-171 | the only checkbox a field writes is the one of a single-bit field |
| TagListXhtml.FieldCheckboxes | src/tag_list_xhtml.rs:155-163 | a single-bit field gets one checkbox bound to the same absolute register addresses and bit as its input; a wider field gets none |
| TagListXhtml.BuildRegisterTag | src/tag_list_xhtml.rs:180-224 | `build_tag` of a register range writes address, label, input, enums, unit and fields as specified |
| TagListXhtml.BuildFields | src/tag_list_xhtml.rs:215-221 | the field loop writes each field in order |
| TagListXhtml.BuildBitTag | src/tag_list_xhtml.rs:226-246 | `build_tag` of a bit writes its address, label and checkbox as specified |
| TagListXhtml.BuildGroupHead | src/tag_list_xhtml.rs:248-264 | the group header with its address and label is written |
| TagListXhtml.BuildRegisterGroup | src/tag_list_xhtml.rs:248-271 | a register group writes its header, then its tags with the group's base added |
| TagListXhtml.BuildRegisterSubList | src/tag_list_xhtml.rs:273-294 | the list, each register or group in order, the end of the list |
| TagListXhtml.BuildBitGroup | src/tag_list_xhtml.rs:248-271 | a bit group writes its header, then its bits with the group's base added |
| TagListXhtml.BuildBitSubList | src/tag_list_xhtml.rs:273-294 | the list, each bit or group in order, the end of the list |
| TagListXhtml.BuildRegisterList | src/tag_list_xhtml.rs:296-299 | the top-level register list is written with no base address |
| TagListXhtml.BuildBitList | src/tag_list_xhtml.rs:301-304 | the top-level bit list is written with no base address |
| TagListXhtml.PlacedMapAppend | src/tag_list_xhtml.rs:273-294 | marks of two placed lists one after the other are the marks of each in turn |
| TagListXhtml.SubListPicked | src/tag_list_xhtml.rs:248-294 | the marks of a list are those of its tags in depth-first order, each at the bases of its enclosing groups; list frames and group headers add none |
| TagListXhtml.ItemsPicked | src/tag_list_xhtml.rs:278-291 | the same for the items of the loop |
| TagListXhtml.GroupPicked | src/tag_list_xhtml.rs:248-271 | a group adds the marks of its tags at its base |
| TagListXhtml.BitPicks | src/tag_list_xhtml.rs:226-246 | a bit adds exactly one checkbox, at its absolute address |
| TagListXhtml.RegisterPicks | src/tag_list_xhtml.rs:180-224 | a register range adds exactly one address span: input, enums, unit and fields show none |
| TagListXhtml.BitListCheckboxes | src/tag_list_xhtml.rs:301-304 | the bit list shows one checkbox per bit, in the order `tag_iter` visits them, each bound to the bit's absolute address |
| TagListXhtml.RegisterListAddresses | src/tag_list_xhtml.rs:296-299 | the register list shows one address span per register range, in `tag_iter` order, at its absolute addresses |
| TagListXhtml.RegisterInputPicks | src/tag_list_xhtml.rs:203-208 | a register range adds exactly one input bound to the whole range (`mb:addr-low`, `mb:addr-high`) at its absolute addresses; the inputs of its fields are bound to bits and are not among them |
| TagListXhtml.RegisterListBindings | src/tag_list_xhtml.rs:296-299 | the register list shows one input per register range, in `tag_iter` order, bound to the range's absolute addresses and carrying its presentation and encoding |
| XmlCommon.NewError | src/xml_common.rs:14-21 | a new error carries the kind given and the position where the node starts |
| XmlCommon.PositionedText | src/xml_common.rs:25-29 | the error text is longer than its message |
| XmlCommon.IsWhitespace | src/xml_common.rs:69 | among ASCII characters exactly space and tab to carriage return; no-break space, ideographic space and line separator are whitespace, zero-width space and the byte-order mark are not; all of them lie between 9 and U+3000 |
| XmlCommon.PositionedTextReadBack | src/xml_common.rs:25-29 | "row:col: message" can be taken apart again: the digits before the first ':' read back as the row, those up to the next ':' as the column, and the message follows ": " |
| XmlCommon.PositionedLayout | src/xml_common.rs:25-29 | where the two ':' separators and the message lie in the error text |
| XmlCommon.PositionedNumbers | src/xml_common.rs:25-29 | the row and column digits of the error text read back as the numbers |
| XmlCommon.FindNonWhitespace | src/xml_common.rs:69 | the first character that is not whitespace, with only whitespace before it; none exactly when the text is all whitespace |
| XmlCommon.CheckElementNs | src/xml_common.rs:59-75 | true exactly for an element of either configuration namespace; WrongNamespace exactly for an element of another or none; UnexpectedText exactly for text that is not all whitespace; false for everything else; errors sit at the node |
| XmlCommon.RequiredAttribute | src/xml_common.rs:77-87 | MissingAttribute exactly when the attribute is absent; otherwise its parsed value, or ParseAttribute with the parser's message |
| XmlCommon.OptionalAttribute | src/xml_common.rs:89-106 | None exactly when the attribute is absent; otherwise Some of its parsed value, or ParseAttribute with the parser's message |
| XmlCommon.AttributeReadersAgree | src/xml_common.rs:77-106 | the two readers agree on every present attribute, value for value and error for error, and the optional one gives None exactly where the required one reports it missing |
| TagLists.TagIterAppend | src/tags.rs:31-69 | walking two lists one after the other is walking the first, then the second |

## Left out

- Networking, serial lines, tokio tasks, `Notify`/`RwLock`, timeouts and the client poll loop (`client_poll`, `handle_poll`, `ClientOp::execute`, `server_tcp`/`server_rtu`, `client_tcp`/`client_rtu`) are I/O and concurrency. Only their sequential parts are modelled: `call` with its helpers, and `read_sequence`.
- `Devices::updated` and the `Updated` stream are an async loop over `Notify`. Only its sequential step, taking an observer's changes with `clear_into`, is modelled (`ObservableArrays.Base.TakeChanges`).
- Logging (`error!`, `debug!`, `console.log`) has no effect on state and is left out.
- Floating point is left out: `f32`/`f64` text parsing, the scaled integer path of `register_value::parse` (`v * scale`, `round`, `BigUint::from_f64`), and `to_le_bytes` of floats. They enter `RegisterValue.Parse` as a given `FloatReading`. `TagListXml.ParseF32` reads decimal text exactly, as a real number, and does not model "inf", "nan" or rounding to `f32`.
- In `web/modbus.js`, `parseFloat`, `Math.round(value * scale)` and `value /= scale` are left out. Inputs hold integer words, and the scale attribute is taken to be absent.
- The DOM, event registration, WebSocket setup, `socket_uri` and `JSON.parse` are left out. Elements are `Input` objects and the focus is `Document.activeElement`.
- `escaper::encode_minimal` and the `f32` formatting of a scale lie outside the model. They are parameters of `TagListXhtml.Context` (`esc`, `formatScale`).
- Errors from the `Write` sink are left out. Each `write!` appends one chunk and never fails.
- JSON object member order is left out: `serde_json::Map` members are modelled as a map by name.
- The JSON `addr_to_string` and `build_enum_field` in `src/tag_list_json.rs` are never called and are not modelled.
- `BigUint` is a natural number. `to_bytes_le` is its minimal little-endian bytes (`RegisterValue.ToBytesLe`).
- `ParsedU16` on a negative magnitude of exactly 32768 overflows `-(i as i16)` in the source: a debug build panics, and a release build wraps to 32768, which is what the model gives. For every other magnitude the source and the model agree on the 16-bit two's complement.
- TagLists.TagIter: the code of `tag_iter` is not modelled. The walk is taken to be depth-first, adding the bases of the enclosing groups.
- TagLists.Flatten: the conversion from a device's nested tag definitions to the flat list that `From<&TagList> for TagRanges` reads (src/devices.rs:45-47 passes the definitions, src/tag_ranges.rs:31-50 reads a flat `TagList`) is assumed. It is taken to be the `tag_iter` walk above, with each tag at its absolute addresses, and it requires AddressesFit. Every poll range depends on this assumption.
- TagLists: src/tag_list.rs holds an older, flat `Register`/`TagList`. The nested types (`RegisterRange`, `Group`, `TagOrGroup`, `TagDefList`) are reconstructed from their uses in src/tag_list_xml.rs, src/tag_list_json.rs, src/tag_list_xhtml.rs and src/register_value.rs.
- Address plus group base in the page builders and in `Tags::new`: the source adds `u16` values. TagLists.AddressesFit requires that these sums stay below 65536, and the builders add on unbounded integers.
- ModbusConnection.Call: requires Separate, that no two devices share an area object. In the source each device owns its `Tags` by value, so aliasing between devices cannot arise; DeviceTables.NewDevices proves that the device list it builds meets it.
- ModbusConnection.ReadSequence: requires Plannable, that every poll range has start <= end < 65536. The ranges are `Range<u16>` in the source, and `push_range` computes `range.end - range.start` in `u16`, which would overflow for a range whose end lies before its start.
- RegisterValue.Parse: requires WellSized, that is, `address_high - address_low + 1` and twice that fit in `u16`. Otherwise the source overflows.
- ObservableArrays.Base.Update: requires that the data fit inside the area. The source panics otherwise.
- TagRangeSets.TagRanges.FromTagList: requires NoOverflow, that `address_high + 1` of every tag fits in `u16`. The source overflows otherwise.
- DeviceTables.NewDevices: `sort_by_key` is not a separate step. The devices already come in ascending address order from the ordered map, and the model proves that the order is sorted.
- `ObservableArray::get_array`, `len` and `is_empty` are direct reads of the `elements` field.
- The `Display` texts of integer parse errors are modelled by kind only (`Numbers.IntErrorMessage`).

## Findings

| source | as written | input that shows it | evidently intended | confidence | as-written member | corrected member |
|---|---|---|---|---|---|---|
| src/modbus_connection.rs:47-48 | the bounds check adds `start` and `count` as `usize`, but the slice end is the `u16` sum `start + count` | ReadHoldingRegisters(65535, 1) on a configured unit: the check passes (65536 <= 65536) and the `u16` sum overflows, so the request panics | the slice end computed as in the check, so the last register can be read | high, not executed | ModbusConnection.ServerReadAsWritten | ModbusConnection.ServerRead |
| src/modbus_connection.rs:67-68 | only `start` is checked before `update`, which copies into `start..start + data.len()` | WriteMultipleRegisters(65535, [1, 2]) on a configured unit: 65535 < 65536 passes the check and the slice up to 65537 panics | IllegalDataAddress when the data runs past the end of the area | high, not executed | ModbusConnection.ServerWriteAsWritten | ModbusConnection.ServerWrite |
