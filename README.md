# C# bindings emitter of the Tinkerforge generators, in Dafny

This project models the C# bindings generator of the Tinkerforge
`generators` repository (`csharp/generate_csharp_bindings.py`). For one
device — its constant groups, and its packets (functions and callbacks),
each with typed `in`/`out` elements — the generator writes one C# class.
The class has nine fragments, in this order:

1. the `using` block;
2. the class head;
3. the function-id constants;
4. the constant-group constants;
5. the callback events, with legacy aliases for older devices;
6. the constructor with its callback registrations;
7. the response-expected table;
8. one method per function, which packs the request and unpacks the response;
9. one handler per callback, which unpacks the callback payload.

Every packed value sits at an 8-byte header plus the running sum of the
element sizes before it. Bool arrays are bit-packed, least significant bit
first, into `ceil(n/8)` bytes.

Each packet's documentation becomes an XML doc comment. The rst `note`,
`warning` and `csv-table` directives are translated line by line, with
four state flags.

Before emitting anything, the generator refuses a device in which a
callback `C` sits beside a function named `C Callback`, because the two
would get the same C# name. After writing a file, it records the file
name if the device is released.

The model keeps every decision the generator makes:

- branches, offsets and counts;
- which template fires for which element;
- flag values, the order of declarations, and the error message;
- the doc-comment translation, exactly as written.

Each emitted C# statement is represented by the values its template
substitutes, as a datatype (for example `WriteBoolArray(bitsName,
byteCount, count, name, pos)`), instead of by the template's fixed text.
The helpers the generator inherits from its shared base classes (naming,
C# type names, converter method names, parameter lists, rst
post-processing) are the fields of a `Mapper` value.

Each emitter is a method with the loop the source has. It is proved equal
to a specification function. The properties are lemmas about those
functions.

Modules:

- `Text`: Python's `strip`, `split`, `join` and `str(int)`, and XML `escape`.
- `DeviceModel`: devices, packets, elements, sizes.
- `Layout`: offsets.
- `BitPacking`: the bool-array wire format.
- `DocFormat`: the doc comment.
- `Declarations`: function ids, constants, events, constructor, response flags.
- `Methods`: function methods.
- `CallbackHandlers`: callback handlers.
- `Source`: the collision check, the fragment order and the generator.

## Model

| member | source | states |
|---|---|---|
| Text.Strip | csharp/generate_csharp_bindings.py:505 | `str.strip()`: the result is no longer than the input |
| Text.StripIsTrimmedSlice | csharp/generate_csharp_bindings.py:505 | the stripped line is a slice of the line with only whitespace cut on each side and no whitespace left at either end |
| Text.StripEmptyIffAllSpace | csharp/generate_csharp_bindings.py:511 | `len(line.strip()) == 0` exactly when every character of the line is whitespace |
| Text.StripIndented | csharp/generate_csharp_bindings.py:505-524 | an indented directive strips to the directive itself |
| Text.StripOfTrimmed | csharp/generate_csharp_bindings.py:550 | text without whitespace at either end is left unchanged by `strip` |
| Text.SplitPartsExclude | csharp/generate_csharp_bindings.py:497 | `split('\n')` gives at least one part, and no part contains the separator |
| Text.JoinSplit | csharp/generate_csharp_bindings.py:550 | joining the parts of a split with `sep` replaces every separator by `sep` |
| Text.ReplaceCharFacts | csharp/generate_csharp_bindings.py:550 | replacing line breaks by a text without line breaks leaves none, and text without line breaks is unchanged |
| Text.JoinSplitRoundTrip | csharp/generate_csharp_bindings.py:497-539 | joining split lines with `'\n'` gives the text back |
| Text.SplitJoinRoundTrip | csharp/generate_csharp_bindings.py:497-539 | splitting joined lines that contain no separator gives the lines back |
| Text.SplitAfterPart | csharp/generate_csharp_bindings.py:497 | a split separates the first part from the rest at the first separator |
| Text.SplitNoSeparator | csharp/generate_csharp_bindings.py:497 | text without a separator splits into itself |
| Text.JoinConsFirst | csharp/generate_csharp_bindings.py:539 | a join puts the separator between the first part and the rest |
| Text.ReplaceIdentity | csharp/generate_csharp_bindings.py:539 | replacing a character by itself changes nothing |
| Text.NatToStringDigits | csharp/generate_csharp_bindings.py:223 | `str(n)` of a natural number is a non-empty run of decimal digits with no leading zero |
| Text.ParseNatToString | csharp/generate_csharp_bindings.py:223 | reading back the decimal text of a natural number gives the number |
| Text.ParseIntToString | csharp/generate_csharp_bindings.py:223 | reading back `str(i)` of any integer, negative ones included, gives the integer |
| Text.Escape | csharp/generate_csharp_bindings.py:494 | `escape` leaves no `<` or `>` in the text and keeps or keeps out line breaks as the input does |
| Text.UnescapeEscape | csharp/generate_csharp_bindings.py:494 | escaping `&`, `>` and `<` loses nothing: unescaping gives the text back |
| DeviceModel.CeilDiv8 | csharp/generate_csharp_bindings.py:398 | `int(math.ceil(n / 8.0))` is the least `r` with `8r >= n` |
| DeviceModel.TypeWidth | csharp/generate_csharp_bindings.py:336 | each item of an element takes 1, 2, 4 or 8 bytes |
| DeviceModel.SizeIsCountTimesWidth | csharp/generate_csharp_bindings.py:320-336 | an element's wire size is `ceil(n/8)` bytes for bool arrays and `n` items of its type's width otherwise |
| DeviceModel.ElementsOf | csharp/generate_csharp_bindings.py:392 | `get_elements(direction)` keeps only elements of that direction, taken from the packet |
| DeviceModel.PacketsOf | csharp/generate_csharp_bindings.py:292 | `get_packets(type)` keeps only packets of that type, taken from the device |
| DeviceModel.ElementsOfAppend | csharp/generate_csharp_bindings.py:392 | selecting the elements of one direction from a concatenation selects from each part and keeps them in declaration order |
| DeviceModel.ElementsOfSingle | csharp/generate_csharp_bindings.py:392 | a single element is kept exactly when it has the selected direction |
| DeviceModel.PacketsOfAppend | csharp/generate_csharp_bindings.py:368 | selecting the packets of one kind from a concatenation selects from each part and keeps them in device order |
| DeviceModel.PacketsOfSingle | csharp/generate_csharp_bindings.py:368 | a single packet is kept exactly when it has the selected kind |
| DeviceModel.PacketNames | csharp/generate_csharp_bindings.py:470-471 | `get_packet_names(type)` lists the names of those packets in order |
| DeviceModel.DirectionsPartition | csharp/generate_csharp_bindings.py:391-452 | every element is in exactly one of the `in` and `out` lists, and the two lists together are as long as the element list |
| DeviceModel.KindsPartition | csharp/generate_csharp_bindings.py:261-273 | every packet is a function or a callback, and the two selections together are as long as the packet list |
| DeviceModel.PackedByteCounts | csharp/generate_csharp_bindings.py:397-401 | 5 and 8 flags take 1 byte, 9 take 2, 64 take 8; any non-empty array needs at least one byte and no spare byte |
| Layout.OffsetStep | csharp/generate_csharp_bindings.py:391-418 | `pos` starts at 8 and each element moves it on by its size |
| Layout.OffsetMonotone | csharp/generate_csharp_bindings.py:391-418 | offsets never decrease along the element list |
| Layout.InFrame | csharp/generate_csharp_bindings.py:391-418 | every element, also the only element of a one-element packet, lies after the 8-byte header and ends no later than the payload |
| Layout.FieldsDisjointAndInFrame | csharp/generate_csharp_bindings.py:391-418 | the fields of two elements never overlap, and all lie after the 8-byte header and before the end of the payload |
| Layout.SumSizesAppend | csharp/generate_csharp_bindings.py:418 | the size of two element lists is the sum of their sizes |
| Layout.RequestSizeIsEndOfRequest | csharp/generate_csharp_bindings.py:364-418 | the request size a method creates is the offset after the last `in` element |
| Layout.GetStateLayout | configs/bricklet_evse_config.py:120-144 | whatever their names, ten `out` elements with the types of the EVSE Bricklet's `Get State` (uint8 x5, uint16, uint8 x2, uint32 x2) are read at offsets 8, 9, 10, 11, 12, 13, 15, 16, 17 and 21, and the response ends at 25 |
| BitPacking.Pack | csharp/generate_csharp_bindings.py:382-389 | the packed bytes of `n` flags number `ceil(n/8)` |
| BitPacking.Unpack | csharp/generate_csharp_bindings.py:423-428 | unpacking yields exactly `n` flags |
| BitPacking.BitOfPackByte | csharp/generate_csharp_bindings.py:385-386 | bit `k` of packed byte `j` is flag `8j + k`, or clear beyond the last flag |
| BitPacking.PackBitLayout | csharp/generate_csharp_bindings.py:382-389 | flag `i` is bit `i % 8` of byte `i / 8`, least significant bit first, and the padding bits are clear |
| BitPacking.UnpackPack | csharp/generate_csharp_bindings.py:382-428 | unpacking packed flags gives the flags back |
| BitPacking.PackUnpack | csharp/generate_csharp_bindings.py:304-389 | packing unpacked bytes gives the bytes back when they have the right length and clear padding |
| BitPacking.BitsDeterminePack | csharp/generate_csharp_bindings.py:382-389 | bytes whose bits agree with the flags are the packed flags |
| BitPacking.SetFlagStep | csharp/generate_csharp_bindings.py:385-386 | `bits[i / 8] \|= (byte)(1 << (i % 8))` sets bit `i` and no other |
| BitPacking.PackBoolArray | csharp/generate_csharp_bindings.py:382-389 | the emitted packing loop, bounded by the declared cardinality and writing into `ceil(cardinality/8)` bytes, yields the packed first `cardinality` flags |
| BitPacking.UnpackBoolArray | csharp/generate_csharp_bindings.py:423-428 | the emitted unpacking loop, run on an array, yields the unpacked flags |
| BitPacking.PackThenUnpack | csharp/generate_csharp_bindings.py:382-428 | a bool array written by a method and read back by the matching read is the original array |
| DocFormat.StepLineByKind | csharp/generate_csharp_bindings.py:505-537 | the `elif` chain, read by the kind of the stripped line: what each kind emits in each state, and the new flags |
| DocFormat.TranslateCons | csharp/generate_csharp_bindings.py:504-537 | translating a line and then the rest emits that line's output followed by the rest's output, in the new state |
| DocFormat.TranslateDocLines | csharp/generate_csharp_bindings.py:497-537 | the loop with its four flags emits exactly the translation of the lines from the start state |
| DocFormat.TranslateAppend | csharp/generate_csharp_bindings.py:504-537 | translating two blocks of lines is translating the first and then the second in the state the first left |
| DocFormat.PlainTextUnchanged | csharp/generate_csharp_bindings.py:536-537 | text without directive lines passes through unchanged and leaves every flag clear |
| DocFormat.TextLinesUnchanged | csharp/generate_csharp_bindings.py:536-537 | non-blank, non-directive lines pass through unchanged and keep the flags |
| DocFormat.DirectiveKinds | csharp/generate_csharp_bindings.py:505-526 | `.. note::`, `.. warning::`, `.. csv-table::` and the empty line are read as the note, warning, table and blank kinds |
| DocFormat.OpenNoteStep | csharp/generate_csharp_bindings.py:505-510 | a note opens `<note>` and a warning opens `<note type="caution">` |
| DocFormat.CloseNoteStep | csharp/generate_csharp_bindings.py:511-518 | a blank line inside a note or warning clears both flags and emits `</note>` and an empty line |
| DocFormat.NoteBlock | csharp/generate_csharp_bindings.py:505-518 | a note or warning block becomes its tag, its body unchanged, `</note>` and an empty line, and ends in the start state |
| DocFormat.TableHead | csharp/generate_csharp_bindings.py:519-530 | a table head becomes `<code>`, the header line without its first nine characters and an empty line; `:widths:` is dropped and the body flag is set |
| DocFormat.TableHeadSteps | csharp/generate_csharp_bindings.py:519-530 | the table head's four lines, one step at a time |
| DocFormat.CsvTable | csharp/generate_csharp_bindings.py:519-535 | a whole csv table becomes `<code>`, the header, an empty line, the rows unchanged, `</code>` and an empty line, and ends in the start state |
| DocFormat.NoteClosesBeforeTableHead | csharp/generate_csharp_bindings.py:511-530 | inside a table head, a blank line closes an open note first and the table head stays open |
| DocFormat.IndentedHeaderSlice | csharp/generate_csharp_bindings.py:522-523 | an indented `:header:` line keeps the last characters of `:header: ` in the output: the slice is taken from the unstripped line |
| DocFormat.IndentedHeaderKind | csharp/generate_csharp_bindings.py:522 | an indented `:header: ` line is recognised by its stripped text |
| DocFormat.HeaderSlice | csharp/generate_csharp_bindings.py:523 | dropping nine characters from an indented header line leaves the tail of `:header: ` and the header |
| DocFormat.FormatDoc | csharp/generate_csharp_bindings.py:490-550 | the formatter computes the formatted doc: escape, split, translate, join, post-process, strip, join with the comment prefix |
| DocFormat.FormattedDocStaysInComment | csharp/generate_csharp_bindings.py:550 | the doc is the stripped text with every line break replaced by `\n\t\t///  `, so each line continues the `///` comment |
| DocFormat.BreaksFollowedByPrefix | csharp/generate_csharp_bindings.py:550 | after replacing line breaks by `\n\t\t///  `, every line break is followed by the comment prefix |
| DocFormat.CollidingNamesShareLink | csharp/generate_csharp_bindings.py:114-121 | a function whose camel-case name is a callback's name plus `Callback` gets the same doc link as that callback |
| Declarations.FunctionIdDecls | csharp/generate_csharp_bindings.py:194-209 | one constant per packet, in packet order, named `FUNCTION_`/`CALLBACK_` plus the upper-case name, with the packet's id |
| Declarations.EmitFunctionIds | csharp/generate_csharp_bindings.py:194-209 | the loop emits exactly those constants |
| Declarations.FunctionIdsDeclareAll | csharp/generate_csharp_bindings.py:194-209 | the declared identifiers are exactly the identifiers of the device's packets |
| Declarations.GroupDecls | csharp/generate_csharp_bindings.py:219-228 | one declaration per constant of a group |
| Declarations.ConstantOrder | csharp/generate_csharp_bindings.py:211-229 | one declaration per (group, constant): constant `c` of group `g` is declaration number (constants in groups before `g`) + `c` |
| Declarations.ConstantCountMonotone | csharp/generate_csharp_bindings.py:211-229 | the constants of the groups up to and including `g` are no more than all constants |
| Declarations.DeclsLength | csharp/generate_csharp_bindings.py:211-229 | there are as many declarations as constants |
| Declarations.EmitGroupConstants | csharp/generate_csharp_bindings.py:219-228 | the inner loop emits exactly the declarations of one group's constants, in order, with the value quoted for `'char'` groups |
| Declarations.EmitConstants | csharp/generate_csharp_bindings.py:211-229 | the nested loop emits exactly the declarations of all groups, group after group |
| Declarations.ValueTextRendering | csharp/generate_csharp_bindings.py:220-223 | a `'char'` group's value is written as `'c'`; any other group's value is written in decimal and reads back as the constant's integer |
| Declarations.DistinctValuesStayDistinct | csharp/generate_csharp_bindings.py:223 | different integer constants get different C# values |
| Declarations.DelegateDecls | csharp/generate_csharp_bindings.py:158-192 | one event per callback |
| Declarations.EmitDelegate | csharp/generate_csharp_bindings.py:180-187 | one callback's event: its name, its parameters after `, ` (or none), its doc and its sender class |
| Declarations.EmitDelegates | csharp/generate_csharp_bindings.py:158-192 | the loop emits exactly one event per callback, in callback order |
| Declarations.DelegatesPerCallback | csharp/generate_csharp_bindings.py:179-190 | event `k` is named after callback `k`, and has the legacy alias exactly when the class is in the legacy list |
| Declarations.LegacyListExcludesRS232 | csharp/generate_csharp_bindings.py:38-111 | the RS232 Bricklet is not in the legacy list, and the IO-4 Bricklet is |
| Declarations.Registrations | csharp/generate_csharp_bindings.py:246-251 | one registration per callback |
| Declarations.EmitConstructor | csharp/generate_csharp_bindings.py:231-254 | the constructor carries the class name, the API version and one registration per callback, in callback order |
| Declarations.RegistrationsUseDeclaredIds | csharp/generate_csharp_bindings.py:194-251 | every registration indexes with a function-id constant the class declares |
| Declarations.ResponseFlagRules | csharp/generate_csharp_bindings.py:256-275 | ALWAYS_TRUE exactly for functions with an `out` element; TRUE exactly for functions without one whose doc type is `ccf` or `llf`; FALSE exactly for the other functions; ALWAYS_FALSE for every callback |
| Declarations.EmitResponseExpected | csharp/generate_csharp_bindings.py:256-275 | the two loops emit the function entries and then the callback entries |
| Declarations.ResponseEntriesCount | csharp/generate_csharp_bindings.py:256-275 | exactly one entry per packet |
| Declarations.ResponseEntriesUseDeclaredIds | csharp/generate_csharp_bindings.py:256-275 | every entry sets a declared function-id constant |
| Declarations.ResponseEntriesCoverPackets | csharp/generate_csharp_bindings.py:256-275 | every packet's entry, with its flag, is in the table |
| Methods.LengthArg | csharp/generate_csharp_bindings.py:432-438 | the `, count` argument is present exactly for arrays of non-bool elements, and is their cardinality |
| Methods.RemoveBrackets | csharp/generate_csharp_bindings.py:404-405 | the item type has no `[` or `]`, and a type without them is unchanged |
| Methods.WriteConvs | csharp/generate_csharp_bindings.py:391-418 | one write per `in` element, element `k` written at its offset |
| Methods.WriteShape | csharp/generate_csharp_bindings.py:392-417 | a scalar is written directly; a bool array is packed; any other array is written with its count, through a copy of the converter's item type exactly when that type differs from the parameter type |
| Methods.EmitWrites | csharp/generate_csharp_bindings.py:391-418 | the loop, with the four-way branch per element, emits exactly the writes at their offsets and ends at the offset after the last element |
| Methods.ReadConvs | csharp/generate_csharp_bindings.py:430-452 | one read per `out` element, element `k` read at its offset |
| Methods.TailShape | csharp/generate_csharp_bindings.py:420-457 | no `out` element: send only; exactly one: return it directly from offset 8; more: one assignment per element at its offset |
| Methods.ReadShape | csharp/generate_csharp_bindings.py:432-451 | a read is a bool-array unpacking exactly for a bool array; any other element is read directly, with its count exactly when it is an array |
| Methods.EmitTail | csharp/generate_csharp_bindings.py:430-457 | the loop, with its per-element read branch, emits exactly that tail, for any number of `out` elements |
| Methods.MethodDecls | csharp/generate_csharp_bindings.py:348-467 | one method per function |
| Methods.EmitMethod | csharp/generate_csharp_bindings.py:369-465 | one function's method: signature, request size, function id, writes, tail and doc |
| Methods.EmitMethods | csharp/generate_csharp_bindings.py:348-467 | the loop emits exactly one method per function, in function order |
| Methods.WriteWithinRequest | csharp/generate_csharp_bindings.py:364-418 | each write, also the only write of a one-argument method, lies after the header and inside the created request |
| Methods.WritesWithinRequest | csharp/generate_csharp_bindings.py:364-418 | any two writes are in element order, do not overlap, and lie after the header and inside the created request |
| Methods.RequestSizeIsWhereWritesEnd | csharp/generate_csharp_bindings.py:371-418 | the request is exactly as long as the writes need: it ends where the last write ends, or after the header when there is none |
| Methods.BoolArrayRoundTrip | csharp/generate_csharp_bindings.py:397-449 | a bool array's write and read both use its wire size, which is the packed length, and unpacking with the emitted count gives the flags back |
| CallbackHandlers.CallbackConvs | csharp/generate_csharp_bindings.py:312-336 | one read per `out` element of a callback, element `k` read at its offset |
| CallbackHandlers.ArgumentNames | csharp/generate_csharp_bindings.py:295-297 | one event argument per `out` element |
| CallbackHandlers.CallbackHandlerDecls | csharp/generate_csharp_bindings.py:277-346 | one handler per callback |
| CallbackHandlers.CallbackConvShape | csharp/generate_csharp_bindings.py:313-334 | a bool array is declared, read as bytes and unpacked exactly when it is a bool array; any other element is declared with its C# type and read directly, with its count exactly when it is an array |
| CallbackHandlers.EmitCallbackConvs | csharp/generate_csharp_bindings.py:312-336 | the loop, with its per-element branch, emits exactly the reads at their offsets |
| CallbackHandlers.EmitHandler | csharp/generate_csharp_bindings.py:292-344 | one handler: the event it raises, the reads, and the arguments after `this` |
| CallbackHandlers.EmitCallbacks | csharp/generate_csharp_bindings.py:277-346 | the loop emits exactly one handler per callback, in callback order |
| CallbackHandlers.OffsetsAgree | csharp/generate_csharp_bindings.py:312-452 | method writes, method reads and callback reads place element `k` at the same offset, 8 plus the sizes before it, and give a bool array the same byte count |
| CallbackHandlers.HandlerReadWithinPayload | csharp/generate_csharp_bindings.py:312-336 | each handler read, also the only read of a one-value callback, lies inside the payload |
| CallbackHandlers.HandlerReadsWithinPayload | csharp/generate_csharp_bindings.py:312-336 | handler reads are in element order, do not overlap, and lie inside the payload |
| CallbackHandlers.RegistrationsTargetHandlers | csharp/generate_csharp_bindings.py:246-284 | registration `k`, handler `k` and event `k` all come from callback `k`, under that callback's function id |
| Source.FirstCollision | csharp/generate_csharp_bindings.py:470-475 | no collision exactly when no callback `C` has a function `C Callback`; a reported collision is such a callback |
| Source.FirstCollisionIsFirst | csharp/generate_csharp_bindings.py:473-475 | the reported collision is the first in packet order |
| Source.FindCollision | csharp/generate_csharp_bindings.py:473-475 | the check loop finds exactly that first collision |
| Source.SourceShape | csharp/generate_csharp_bindings.py:469-487 | generation fails exactly on a collision, with an error naming a colliding callback; otherwise the file is nine fragments in the fixed order |
| Source.FragmentsInOrder | csharp/generate_csharp_bindings.py:477-487 | the generated file is exactly nine fragments: imports, class, function ids, constants, delegates, constructor, response expected, methods, callbacks, in that order |
| Source.EmitFragments | csharp/generate_csharp_bindings.py:477-485 | the nine emitters' results, in file order |
| Source.EmitSource | csharp/generate_csharp_bindings.py:469-487 | the check runs before any emitter and the result is the device's source or the collision error |
| Source.ReleasedIffReleased | csharp/generate_csharp_bindings.py:575-576 | a device's file joins the released list exactly when the device is released and its source was generated; earlier entries are kept in order |
| Source.CSharpBindingsGenerator.constructor | csharp/generate_csharp_bindings.py:552-566 | the released list starts empty |
| Source.CSharpBindingsGenerator.Generate | csharp/generate_csharp_bindings.py:568-576 | the file is named `<ClassName>.cs`, and the released list gains it exactly when the device is released and generation succeeded |

## Left out

- PackBoolArray: requires the flag array to hold at least the declared cardinality. The generated C# throws `IndexOutOfRangeException` on a shorter array; that exception is not modelled.
- `common.select_lang` is left out: each device description and doc text is taken already in English.
- The shared naming and type helpers of `common.py` and `csharp_common.py` are not part of this model. These are the case conversions, the C# type names, the `LEConverter` type and method names, `get_csharp_parameter_list` and `get_csharp_method_signature`. They are parameters (fields of `DeviceModel.Mapper`), so no property here depends on how they work.
- The rst post-processing of the doc text is another `Mapper` parameter. This covers link specialisation, `handle_rst_param`, `handle_rst_word`, substitutions and the firmware note. `DocFormat.DocLink` states only the link format of the specializer.
- `get_size` and `get_request_size` come from `common.py`, which is not part of this model. Here they are defined as follows:
  - a bool array takes `ceil(n/8)` bytes;
  - any other element takes its cardinality times its type width;
  - the request size is 8 plus the sizes of the `in` elements.
- The fixed text of each C# template is not modelled. Each emitted declaration or statement is a datatype value carrying what the template substitutes. The nine fragments are a sequence of such values, not one string.
- The constant block's `type` argument is `Mapper.csharpType(group type, 1)`.
- File I/O is left out. `generate` opens `<ClassName>.cs` before building the source, so in the source a name collision leaves an empty file behind. The model returns the error without writing anything.
- The callback template's format call also passes `name_upper`, the final `pos` and `signatureParams`, which the template never uses; the local `size` is computed and never passed. None of the four is modelled.
- `Text.IsSpace` treats only ASCII whitespace as whitespace. Python's `strip` also removes Unicode whitespace.
- The validation of device descriptions is left out. This covers duplicate ids, payload limits and type names, all done outside this file. Functions and lemmas here hold for any device value.
- Three descriptions of the system disagree with the code, and the model follows the code:
  - Collision detection is described as a comparison of rendered name sets. The code compares each callback's name plus ` Callback` with the function names.
  - Unreleased devices are described as excluded from generation. The code generates every device and only records released ones.
  - A collision is described as surfacing before any file is written. The code creates the file first.
