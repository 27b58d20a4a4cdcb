# StepManiaX SDK and configuration tool, modelled in Dafny

This project models the logic of the StepManiaX dance-pad software: the
native Windows SDK that talks to the pads over USB HID, and the C#
configuration tool built on it. Every operation is a pure Dafny function or
a method over immutable data; the pads, the operating system, the UI and the
clock appear only as parameters.

The modules follow the program's structure:

- `Bytes`, `Wrappers`: fixed-width integers, bit helpers, `Option` and `Result`.
- `ConfigRecord`: the packed 250-byte configuration record of `SMX.h`, its defaults, flag bits and test-mode codes, with a byte-exact codec and round trips both ways.
- `LegacyConfig`: the pre-version-5 layout and the conversions of `SMXConfigPacket.cpp`, with their version cut-offs.
- `ConfigHelpers`: the tool's helpers on the record (FSR test, enable-mask nibbles, threshold accessors, auto-light mask, version stamp, test-data predicates).
- `Presets`, `Thresholds`, `ActivePad`, `CustomSensors`, `MainWindow`: threshold presets and the unified-threshold mirroring, which sensors each slider owns, the pads being configured, the custom-sensor toggle and the two-pad sync check.
- `Json`, `JsonWriter`, `ImportExport`: the tool's JSON dialect, its writer with the read-back proof, and the settings import and export.
- `Notifier`: the change notifier that diffs pad snapshots and filters subscribers.
- `Commands`: the tool's command assembler.
- `DeviceConnection`, `Device`, `Manager`, `Api`, `DeviceSearch`, `TextHelpers`: the SDK's HID framing and reassembly, the per-pad config and test-data state machine, the two-slot manager with its lights queue, the exported entry points, the device-path bookkeeping, and the string helpers.
- `GifStream`, `Lzw`, `GifImage`, `Gif`: the GIF decoder (GIF89a header, logical screen descriptor, colour tables, image descriptor, graphic control extension, trailer and the variable-length-code LZW of its Appendix F).
- `PanelAnimation`, `AnimationUpload`: the cutting of a GIF into per-panel light graphics, animation playback and overlay, and the packing and chunking of an animation upload.

Some behaviour is modelled as the code has it, although it is probably not what was meant:

- The JSON reader reads the literal `false` as true.
- A fraction's '.' enters the mantissa as the digits "46", its character code.
- The exponent loop swallows one character after the exponent.
- An empty object `{}` cannot be read.
- A repeated key raises the dictionary's duplicate-key exception.
- `\u` takes four decimal digits.
- The notifier's comment says a listener is not told about its own change, but the source is never consulted (`Notifier.SourceIgnored`).
- Writing a configuration to a master controller of version 3 or older sends 2 as the size byte, because the size is chosen by an unsigned comparison with a signed byte. The whole record still follows (`Device.WriteSizeByte`).
- The upload packet's offset field is one byte, so the offsets 480 and 720 go out as 224 and 208 (`AnimationUpload.ParsePacketHeader`).
- `ConvertToOldConfig` takes a reference into the buffer and then resizes the buffer. This is modelled as writing into the resized buffer.
- A test-data reply for a mode other than the one awaited ends the wait without being decoded. The reply's byte count is twice its size byte, kept to 8 bits.
- `SetPreset` stores 16-bit preset values in the byte-typed FSR cells. The model keeps the cells as naturals; the record's wire encoding requires them to be below 256.

## Model

| member | source | states |
|---|---|---|
| TextHelpers.StripCrnl | sdk/Windows/Helpers.cpp:52-56 | the result is a prefix of the input, everything cut off is a carriage return or line feed, and the result does not end in one |
| TextHelpers.StripCrnlUnique | sdk/Windows/Helpers.cpp:52-56 | any prefix that cuts off only line breaks and does not end in one is the stripped text |
| TextHelpers.StripCrnlIdempotent | sdk/Windows/Helpers.cpp:52-56 | stripping twice strips nothing more |
| TextHelpers.StripCrnlAppend | sdk/Windows/Helpers.cpp:52-56 | line breaks appended to any text are stripped back off |
| TextHelpers.BinaryToHex | sdk/Windows/Helpers.cpp:88-98 | two characters per byte |
| TextHelpers.BinaryToHexDigits | sdk/Windows/Helpers.cpp:88-98 | characters 2i and 2i+1 are the high and low lowercase hex digits of byte i |
| TextHelpers.HexRoundTrip | sdk/Windows/Helpers.cpp:88-98 | the hex text reads back as exactly the bytes it was made from |
| TextHelpers.BinaryToHexOfString | sdk/Windows/Helpers.cpp:100-103 | the string overload writes each character's low byte as two hex digits |
| ConfigRecord.SensorTestModeCodeRoundTrip | sdk/SMX.h:281-294 | every sensor test mode has its own wire code (0 for off, '0' to '3' otherwise) and the code reads back as the mode |
| ConfigRecord.PanelTestModeCode | sdk/SMX.h:314-317 | the panel test mode is sent as '0' or '1', '1' exactly for the pressure test |
| ConfigRecord.DefaultConfig | sdk/SMX.h:189-274 | a default record carries the initializers of the struct: versions 0xFF and 5, debounce 4000 µs, calibration 100/15/60/500/0xFFFF, lights timeout 7, all panels auto-lit, pre-details delay 5 |
| ConfigRecord.EncodePanel | sdk/SMX.h:166-182 | a panel block is 16 bytes: load-cell low/high, four FSR low, four FSR high, then three little-endian 16-bit values |
| ConfigRecord.DecodeEncodePanel | sdk/SMX.h:166-182 | a panel block reads back as the panel settings it was written from |
| ConfigRecord.EncodeDecodePanel | sdk/SMX.h:166-182 | any 16 bytes are the block of the settings they read as |
| ConfigRecord.EncodeLayout | sdk/SMX.h:189-278 | the packed record is 250 bytes with each field at its offset in the packed struct, the panel blocks from byte 56 and the padding from byte 201 |
| ConfigRecord.DecodeEncode | sdk/SMX.h:189-278 | decoding the packed bytes of a record gives the record back |
| ConfigRecord.EncodeDecode | sdk/SMX.h:189-278 | every 250-byte packet is the packing of the record it decodes to |
| ConfigHelpers.GetEnabledPanels | smx-config/SMX.cs:117-130 | nine flags, flag i set exactly when panel i's nibble of the enable mask is non-zero |
| ConfigHelpers.PackPair | smx-config/SMX.cs:133-147 | a byte whose nibbles are each all-set or all-clear, set for the first and second panel of the pair |
| ConfigHelpers.SetEnabledPanels | smx-config/SMX.cs:133-147 | only the enable mask changes; every byte has whole nibbles and the unused low nibble of byte 4 is clear |
| ConfigHelpers.EnabledPanelsRoundTrip | smx-config/SMX.cs:117-147 | reading the panels back after setting them gives the first nine flags that were set |
| ConfigHelpers.EnabledPanelsCanonical | smx-config/SMX.cs:117-147 | rewriting the record's own flags leaves it unchanged exactly when its mask already has whole nibbles and a clear last nibble |
| ConfigHelpers.GetFirstEnabledPanel | smx-config/SMX.cs:151-161 | the lowest enabled panel, or 0 when no panel is enabled |
| ConfigHelpers.GetLowThresholds | smx-config/SMX.cs:167-180 | the nine panels' low load-cell thresholds in panel order |
| ConfigHelpers.GetHighThresholds | smx-config/SMX.cs:182-195 | the nine panels' high load-cell thresholds in panel order |
| ConfigHelpers.ThresholdsRoundTrip | smx-config/SMX.cs:167-207 | setting the low or high thresholds reads back as the values set, leaves the other array and every other field as they were |
| ConfigHelpers.ThresholdsIdentity | smx-config/SMX.cs:167-207 | setting the thresholds a record already has changes nothing |
| ConfigHelpers.Create | smx-config/SMX.cs:210-224 | an all-zero record of the wire shape: no panel enabled, zero thresholds, empty auto-light mask |
| ConfigHelpers.RefreshAutoLightPanelMask | smx-config/SMX.cs:241-252 | left alone in light-all mode when asked to respect it; otherwise bit i of the mask is set exactly for the enabled panels below 9, and no other field changes |
| ConfigHelpers.SetLightAllPanelsMode | smx-config/SMX.cs:229-237 | afterwards light-all mode holds exactly when it was enabled; disabling leaves the mask of enabled panels |
| ConfigHelpers.SetConfig | smx-config/SMX.cs:483-491 | nothing is sent without the SDK library; otherwise the record is sent unchanged apart from config version 2 |
| ConfigHelpers.AnySensorsOnPanelNotResponding | smx-config/SMX.cs:289-298 | true exactly when the panel answered and one of its four sensors is flagged bad |
| ConfigHelpers.AnyBadJumpersOnPanel | smx-config/SMX.cs:300-309 | true exactly when the panel answered and one of its four sensors has a wrong jumper |
| Json.SkipWhitespace | smx-config/SMXJSON.cs:249-265 | stops at the end or at the first character that is not a space, line feed or tab |
| Json.SkippedAreWhitespace | smx-config/SMXJSON.cs:249-265 | every character skipped is a space, line feed or tab |
| Json.Expect | smx-config/SMXJSON.cs:349-355 | success consumes up to and including the expected character; anything else is a parse error |
| Json.ReadCodePoint | smx-config/SMXJSON.cs:443-456 | a \u escape succeeds exactly on four decimal digits and yields their decimal value, below 10000 |
| Json.SimpleEscape | smx-config/SMXJSON.cs:430-441 | exactly the escapes \" \\ \/ \b \n \r \t are known, and the first three stand for themselves |
| Json.ReadString | smx-config/SMXJSON.cs:412-470 | a string token spans at least its two quotes; every failure is a parse error |
| Json.ReadExponent | smx-config/SMXJSON.cs:504-531 | the mantissa and sign come from the digits read before; without an e or E the number ends where the digits ended; the exponent loop swallows one character after its digits |
| Json.ReadNumber | smx-config/SMXJSON.cs:472-532 | a number token yields a number and consumes at least one character; a fraction contributes the characters 4 and 6 (the code of '.') to the mantissa |
| Json.ParseValue | smx-config/SMXJSON.cs:300-347 | a value consumes at least one character; objects read have no repeated keys, because a repeated key raises; the token false reads as true |
| Json.ReadArray | smx-config/SMXJSON.cs:357-383 | an array token yields an array and ends after its closing bracket |
| Json.ReadObject | smx-config/SMXJSON.cs:384-410 | an object token yields an object with distinct keys and ends after its closing brace |
| Json.ParseDocument | smx-config/SMXJSON.cs:287-298 | a document is one value followed only by whitespace; a failing value fails the document with the same error |
| Json.ParseObjectDocument | smx-config/SMXJSON.cs:268-280 | a null document raises a null reference; an object document gives its members; anything else gives the empty default |
| Json.ParseArrayDocument | smx-config/SMXJSON.cs:268-280 | a null document raises a null reference; an array document gives its items; anything else gives the empty default |
| Json.Typed | smx-config/SMXJSON.cs:57-69 | a missing value or one of another type gives the default, a null value raises, a value of the wanted type is returned |
| Json.At | smx-config/SMXJSON.cs:27-37 | an index outside the list gives nothing, otherwise the item at that index |
| Json.Lookup | smx-config/SMXJSON.cs:57-69 | a key is found exactly when some member has it, and the value found belongs to such a member |
| Json.LookupAt | smx-config/SMXJSON.cs:57-69 | the member found is the first one carrying the key |
| Json.GetIntAt | smx-config/SMXJSON.cs:40-43 | raises exactly on a null item; a number item is truncated toward zero; anything else gives the default |
| Json.GetByteAt | smx-config/SMXJSON.cs:45-48 | raises exactly on a null item; a number item is truncated to an integer and then to its low 8 bits; anything else gives the default |
| Json.GetStringAt | smx-config/SMXJSON.cs:27-37 | raises exactly on a null item; a string item is returned; anything else gives the default |
| Json.GetBool | smx-config/SMXJSON.cs:57-69 | raises exactly when the key holds null; a boolean member is returned; anything else gives the default |
| Json.GetList | smx-config/SMXJSON.cs:57-69 | raises exactly when the key holds null; a list member is returned; anything else gives the default |
| JsonWriter.Indent | smx-config/SMXJSON.cs:112-115 | four spaces per level |
| JsonWriter.EscapeChar | smx-config/SMXJSON.cs:127-149 | a character is written as itself unless it is a quote, backslash, backspace, line feed, carriage return or tab, which become a backslash and the escape letter the reader maps back to it |
| JsonWriter.DigitsOf | smx-config/SMXJSON.cs:204-206 | the decimal digits of a natural, without leading zeros, reading back as that natural |
| JsonWriter.Serialize | smx-config/SMXJSON.cs:103-109 | a document ends in a line feed |
| JsonWriter.EscapeRoundTrip | smx-config/SMXJSON.cs:127-149 | the reader turns the escaped text of any string back into that string and stops after the closing quote |
| JsonWriter.NumberRoundTrip | smx-config/SMXJSON.cs:204-206 | the reader reads an integer's text back as that integer |
| JsonWriter.ReadWritten | smx-config/SMXJSON.cs:152-244 | for any value the reader and writer agree on, reading its written text at any indentation gives the value back and stops right after it |
| JsonWriter.SerializeRoundTrip | smx-config/SMXJSON.cs:103-109 | parsing a serialized document gives back the value it was written from, when that value contains no false, no empty object, no repeated key and no exponent |
| LegacyConfig.LowThresholdAt | sdk/Windows/SMXConfigPacket.cpp:11-55 | each panel's legacy threshold pair lies inside the 86 bytes of legacy fields |
| LegacyConfig.Extend | sdk/Windows/SMXConfigPacket.cpp:126-127 | a buffer shorter than 128 bytes is padded to 128 with 0xFF; its own bytes are kept |
| LegacyConfig.CopyThresholds | sdk/Windows/SMXConfigPacket.cpp:69-83 | the listed panels take their load-cell thresholds from their legacy offsets, their FSR thresholds and every other panel are untouched |
| LegacyConfig.ConvertToNew | sdk/Windows/SMXConfigPacket.cpp:60-116 | the common fields always come from the legacy bytes; versions and panels 0, 3, 5, 6, 8 only when the version is not 0xFF, and the debounce delay only from version 3; otherwise the record keeps its own values |
| LegacyConfig.ConvertToOld | sdk/Windows/SMXConfigPacket.cpp:120-169 | the written buffer is at least 128 bytes long |
| LegacyConfig.ConvertToOldLayout | sdk/Windows/SMXConfigPacket.cpp:120-169 | bytes only the legacy layout has keep their old values, and every mapped field lands at its legacy offset |
| LegacyConfig.LegacyRoundTrip | sdk/Windows/SMXConfigPacket.cpp:60-169 | writing a version 3+ record in the legacy layout and reading it back restores every mapped field; fields the legacy layout lacks come from the record being filled |
| LegacyConfig.LegacyRoundTripSelf | sdk/Windows/SMXConfigPacket.cpp:60-169 | a version 3+ record converted back onto itself is unchanged |
| Presets.SamePreset | smx-config/ConfigPresets.cs:35-52 | true exactly when every panel's load-cell and FSR thresholds agree |
| Presets.ApplyPreset | smx-config/ConfigPresets.cs:64-93 | every panel gets the preset's thresholds, the centre panel its own pair, and nothing else changes |
| Presets.SetPreset | smx-config/ConfigPresets.cs:54-62 | "low", "normal" and "high" apply their values (95-114); any other name changes nothing |
| Presets.SyncUnifiedThresholds | smx-config/ConfigPresets.cs:120-138 | left and right take down's thresholds, the corners take up-right's, every other field is kept |
| Presets.SyncKeepsSourcePanels | smx-config/ConfigPresets.cs:120-138 | up, up-right, centre and down are never changed by the sync |
| Presets.SyncIdempotent | smx-config/ConfigPresets.cs:120-138 | syncing twice is syncing once |
| Presets.SyncedIffFixedPoint | smx-config/ConfigPresets.cs:140-147 | a record counts as synced exactly when the sync leaves it unchanged |
| Presets.SyncedMeansGroupsEqual | smx-config/ConfigPresets.cs:140-147 | a record is synced exactly when each mirrored panel has the thresholds of its group's source panel |
| Presets.AreUnifiedThresholdsSyncedAsWritten | smx-config/ConfigPresets.cs:142-147 | the check as written always answers true and leaves the caller's record synced, because the copy shares its panel array |
| Presets.AsWrittenSyncCheckMisreports | smx-config/ConfigPresets.cs:142-147 | a record whose down panel differs from left is reported synced by the check as written but is not synced |
| Presets.Normalized | smx-config/ConfigPresets.cs:21-22 | version-1 records (version 0xFF or below 2) are synced before comparison, others are compared as they are |
| Presets.GetPreset | smx-config/ConfigPresets.cs:13-32 | the first preset in the order low, normal, high whose thresholds the normalized record matches, or "" when none matches |
| Presets.PresetIsSynced | smx-config/ConfigPresets.cs:64-147 | a record a preset was applied to is synced |
| Presets.PresetMatchesOnlyItself | smx-config/ConfigPresets.cs:13-114 | a record holding a preset matches that preset and no other |
| Presets.ClassifyAppliedPreset | smx-config/ConfigPresets.cs:13-62 | classifying a record a preset was applied to returns that preset's name |
| Notifier.ExpandInputs | smx-config/CurrentSMXDevice.cs:139-142 | nine flags, flag i set exactly when bit i of the input mask is set |
| Notifier.ExpandInputsPacks | smx-config/CurrentSMXDevice.cs:139-142 | packing the flags back gives the low nine bits of the mask |
| Notifier.GetState | smx-config/CurrentSMXDevice.cs:129-155 | one entry per pad holding that pad's connection, configuration, test data and inputs, with no flag set and no source |
| Notifier.DiffPad | smx-config/CurrentSMXDevice.cs:92-112 | each flag is set exactly when that part of the pad differs from what was remembered, and the pad's current state is remembered afterwards |
| Notifier.CheckForChangesFlags | smx-config/CurrentSMXDevice.cs:86-119 | a flag is set exactly when that part of some pad moved, the snapshot is dispatched exactly when some flag is set, and both pads' current state is remembered |
| Notifier.SecondCheckIsQuiet | smx-config/CurrentSMXDevice.cs:86-119 | checking the same snapshot again dispatches nothing |
| Notifier.FireConfigurationChanged | smx-config/CurrentSMXDevice.cs:121-127 | the snapshot goes out with the configuration flag set and the caller's source, and nothing else changes |
| Notifier.OnUpdate | smx-config/CurrentSMXDevice.cs:63-76 | an update runs the change check; a finished factory reset dispatches unconditionally with no source and remembers nothing |
| Notifier.SourceIgnored | smx-config/CurrentSMXDevice.cs:206-214 | whether a subscriber runs does not depend on who fired the change |
| Notifier.FiredChangeReachesAll | smx-config/CurrentSMXDevice.cs:121-127 | a fired change reaches every subscriber, including the one that fired it |
| ActivePad.ActivePads | smx-config/Helpers.cs:40-60 | the active pads in pad order, each with its own record; a pad is listed exactly when it is connected and either the other pad is not or the selection names it or is Both |
| ActivePad.ActiveNeedsConnection | smx-config/Helpers.cs:40-60 | a disconnected pad is never active, and a pad alone on the bus is the only active pad whatever the selection |
| ActivePad.GetFirstActivePadConfig | smx-config/Helpers.cs:62-70 | the record of pad 0 when it is active, else pad 1's when it is active, else the empty record |
| Thresholds.PanelIndex | smx-config/Helpers.cs:428-446 | every direction slider writes a panel 0-8, cardinal writing down and corner up-right |
| Thresholds.PanelsToSyncUnifiedThresholds | smx-config/ConfigPresets.cs:120-138 | the mirrored panels are other panels in range: left and right for down, the other corners for up-right |
| Thresholds.AllSensorsOf | smx-config/Helpers.cs:627-631 | four sensors per panel, and exactly the sensors 0-3 of the listed panels |
| Thresholds.AllSensorsDistinct | smx-config/Helpers.cs:627-631 | distinct panels give a list of distinct sensors |
| Thresholds.IndexOf | smx-config/Helpers.cs:585-589 | the position of the first equal entry |
| Thresholds.RemoveFirstMembers | smx-config/Helpers.cs:585-589 | removing an entry from a list without duplicates removes exactly that entry and keeps the list free of duplicates |
| Thresholds.RemoveEachMembers | smx-config/Helpers.cs:585-589 | removing a list of entries keeps exactly the entries not listed |
| Thresholds.InnerOuterDisjoint | smx-config/Helpers.cs:519-545 | the inner and outer sets are four sensors each on panels 1, 3, 5 and 7, and no sensor is in both |
| Thresholds.InternalDistinct | smx-config/Helpers.cs:591-632 | the sensors a non-custom slider reaches have no duplicates |
| Thresholds.Priority | smx-config/Helpers.cs:555-583 | the custom slider keeps its whole list; inner and outer keep their sensors that are not custom; a direction slider keeps its sensors that no active inner, outer or custom slider claims |
| Thresholds.SliderReach | smx-config/Helpers.cs:591-620 | a switched-off inner or outer slider reaches nothing unless overridden sensors are asked for; advanced mode hides cardinal and corner; simple mode shows only up, center, cardinal and corner |
| Thresholds.WholePanels | smx-config/Helpers.cs:622-631 | a panel a direction slider reaches contributes all four of its sensors |
| Thresholds.DirectionPanels | smx-config/Helpers.cs:622-631 | in advanced mode a direction slider reaches only its own panel; in simple mode up reaches 1, center 4, cardinal 7, 3 and 5, corner 2, 0, 6 and 8 |
| Thresholds.OwnersDisjoint | smx-config/Helpers.cs:555-632 | two different sliders never control the same sensor |
| Thresholds.SetCell | smx-config/Helpers.cs:663-668 | one sensor takes the new low and high thresholds; every other sensor and field is kept |
| Thresholds.CopyFromFirstCopies | smx-config/Helpers.cs:661-669 | the copy loop fails exactly on an out-of-range entry; otherwise every listed sensor holds the first sensor's original thresholds and every other sensor keeps its own |
| Thresholds.SyncSliderThresholdsForConfig | smx-config/Helpers.cs:652-672 | a record without FSR sensors is left alone; the re-sync only ever changes FSR thresholds |
| Thresholds.OwnerIn | smx-config/Helpers.cs:657-670 | the first slider of the list that controls the sensor, or none when no slider does |
| Thresholds.SyncSlidersEffect | smx-config/Helpers.cs:657-670 | for distinct sliders: fails exactly when one controls an out-of-range sensor; otherwise each controlled sensor takes its slider's first sensor's thresholds and the rest keep theirs |
| Thresholds.SyncSliderThresholdsEffect | smx-config/Helpers.cs:652-672 | the re-sync of an FSR record fails exactly when the custom list holds an out-of-range entry; otherwise every sensor a slider controls takes that slider's first sensor's thresholds, read before any write, and every other sensor is kept |
| Thresholds.UnreachableIffCustom | smx-config/Helpers.cs:591-632 | only the custom list can put an out-of-range sensor under a slider |
| ImportExport.IntValue | smx-config/SMXJSON.cs:40-43 | an integer as the writer stores it reads back as that integer |
| ImportExport.SensorsValue | smx-config/Helpers.cs:448-458 | the stored list holds one [panel, sensor] pair per sensor, in order, and is a value the writer and reader agree on |
| ImportExport.CustomSensorsJson | smx-config/Helpers.cs:508-520 | text that does not parse gives the empty list; a list document gives its items; another kind gives the empty list; a null document or a repeated key raises |
| ImportExport.DecodeSensors | smx-config/Helpers.cs:486-496 | succeeds exactly when every item is a list with no null in its first two places; pairs holding -1 are skipped; a null item raises and an item that is not a list fails its cast |
| ImportExport.GetCustomSensors | smx-config/Helpers.cs:474-506 | empty or unparseable text gives the empty list; a null document raises |
| ImportExport.Kept | smx-config/Helpers.cs:490-493 | exactly the entries with no -1 coordinate, in order |
| ImportExport.DecodeSensorPairs | smx-config/Helpers.cs:448-506 | decoding the stored pairs of a list gives the list without its -1 entries |
| ImportExport.CustomSensorsRoundTrip | smx-config/Helpers.cs:448-520 | saving a sensor list and loading it back gives the list without the entries that carry -1 |
| ImportExport.ThresholdList | smx-config/Helpers.cs:854-877 | nine thresholds in panel order: sensor 0's FSR threshold on an FSR pad, the load-cell threshold otherwise |
| ImportExport.SetIndexes | smx-config/Helpers.cs:880-887 | exactly the enabled panels, in increasing order |
| ImportExport.ColorList | smx-config/Helpers.cs:889-898 | one colour name per panel, made from that panel's three colour bytes |
| ImportExport.ExportSettingsToJson | smx-config/Helpers.cs:849-906 | fails exactly when the stored sensor list raises; otherwise the serialized dictionary of thresholds, enabled panels, colours, the three options and the sensor list |
| ImportExport.ExportParses | smx-config/Helpers.cs:849-906 | an export with the three options set parses back as its dictionary |
| ImportExport.ReadCells | smx-config/Helpers.cs:924-931 | every FSR cell of the panel takes the list's value for the panel truncated to a byte, or keeps its own value truncated to a byte |
| ImportExport.ImportPanel | smx-config/Helpers.cs:920-942 | only the panel's thresholds change and the FSR cell counts are kept |
| ImportExport.ImportThresholds | smx-config/Helpers.cs:919-942 | only the panel thresholds change; a null threshold list or item raises |
| ImportExport.EnabledFlags | smx-config/Helpers.cs:944-956 | raises exactly on a null item; otherwise panel p is enabled exactly when some item names p, items outside 0-8 being ignored |
| ImportExport.ImportEnabled | smx-config/Helpers.cs:944-958 | only the enable mask changes |
| ImportExport.ImportColors | smx-config/Helpers.cs:960-973 | the colour bytes stay 27 long |
| ImportExport.ImportPanelColors | smx-config/Helpers.cs:960-973 | only the step colours change |
| ImportExport.ImportFrom | smx-config/Helpers.cs:919-981 | only the thresholds, enable mask and colours of the record change; every exception is a null reference |
| ImportExport.ImportSettingsFromJson | smx-config/Helpers.cs:909-982 | text that does not parse changes nothing; a null document raises; nothing but thresholds, enable mask and colours of the record changes |
| ImportExport.ImportThresholdsOfExport | smx-config/Helpers.cs:849-942 | the exported thresholds are imported into a pad of the same kind |
| ImportExport.EnabledFlagsOfIndexes | smx-config/Helpers.cs:880-956 | the exported list of enabled panels reads back as the same flags |
| ImportExport.ImportEnabledOfExport | smx-config/Helpers.cs:880-958 | the imported record has the exported pad's enabled panels |
| ImportExport.ImportColorsOfExport | smx-config/Helpers.cs:889-973 | each imported panel colour is the parse of the exported colour name |
| ImportExport.ImportOptionsOfExport | smx-config/Helpers.cs:900-981 | the three options and the sensor list read back as exported, when the options are set |
| ImportExport.ExportImportRoundTrip | smx-config/Helpers.cs:849-982 | exporting a pad and importing the text into a pad of the same kind carries the thresholds, enabled panels, colours, options and sensor list, and nothing else in the receiving record changes |
| ImportExport.ImportWithoutKnownKeys | smx-config/Helpers.cs:909-982 | a document without any member the import reads leaves the record alone but turns advanced mode on and the two threshold options off |
| CustomSensors.IsSensorEnabled | smx-config/SetCustomSensors.xaml.cs:69-77 | true exactly when the panel's sensor is in the list |
| CustomSensors.ButtonStates | smx-config/SetCustomSensors.xaml.cs:79-85 | button s is checked exactly when the panel's sensor s is in the list |
| CustomSensors.Toggle | smx-config/SetCustomSensors.xaml.cs:53-60 | a sensor not in the list is appended; one in the list loses its first occurrence |
| CustomSensors.ToggleFlips | smx-config/SetCustomSensors.xaml.cs:53-60 | on a list without duplicates a click flips the clicked sensor's membership, keeps every other entry and leaves no duplicates |
| CustomSensors.ToggleTwice | smx-config/SetCustomSensors.xaml.cs:53-60 | clicking twice restores a list that lacked the sensor, and moves the sensor to the end of one that had it |
| CustomSensors.ClickFlipsOneButton | smx-config/SetCustomSensors.xaml.cs:49-85 | after a click the clicked button flips and the other three keep their state |
| CustomSensors.SyncPads | smx-config/Helpers.cs:675-685 | pads are re-synced in order and written until the first failure; all are written exactly when none fails |
| CustomSensors.SyncSliderThresholds | smx-config/Helpers.cs:675-685 | each active pad's re-synced record is written back in order, stamped with configVersion 2 as `SMX.SetConfig` does; the change is fired exactly when every pad re-synced, else nothing is fired |
| CustomSensors.SavedListReloads | smx-config/SetCustomSensors.xaml.cs:53-60 | a loaded list with one sensor toggled survives a save and load unchanged |
| CustomSensors.ClickedSensorButton | smx-config/SetCustomSensors.xaml.cs:49-66 | raises exactly when the stored list does not load; otherwise the toggled list is saved, the pads re-synced with it, and the change fired without and then with the selector as source |
| Commands.Empty | smx-config/Helpers.cs:693-695 | a new buffer holds no parts |
| Commands.WriteBytes | smx-config/Helpers.cs:704 | a byte array is appended as one new part after the earlier ones |
| Commands.WriteString | smx-config/Helpers.cs:696-703 | a string is appended as one part of the same length whose bytes are the characters' low bytes |
| Commands.WriteByte | smx-config/Helpers.cs:705 | a single byte is appended as a one-byte part |
| Commands.WriteChar | smx-config/Helpers.cs:706 | a character is appended as a one-byte part holding its low byte |
| Commands.FlattenLength | smx-config/Helpers.cs:708-722 | the joined bytes are as long as the sum of the part lengths the first pass adds up |
| Commands.PrefixLength | smx-config/Helpers.cs:713-721 | the parts copied so far never exceed the buffer the first pass sized |
| Commands.FlattenSnoc | smx-config/Helpers.cs:704-722 | joining after one more write gives the earlier bytes followed by the new part |
| Commands.Get | smx-config/Helpers.cs:708-722 | returns every written part's bytes concatenated in write order, exactly filling a buffer of the summed length |
| Commands.CopyPart | smx-config/Helpers.cs:716-720 | copying a part at the next free position keeps the bytes before it and appends the part |
| Commands.GetAfterWrite | smx-config/Helpers.cs:696-722 | after a write Get returns the earlier bytes followed by the new part; a string contributes one low byte per character |
| MainWindow.SyncP2FromP1 | smx-config/MainWindow.xaml.cs:165-173 | the record written to P2 keeps the fixed layout of a configuration record and goes out with configVersion 2 |
| MainWindow.SyncP2FromP1Syncs | smx-config/MainWindow.xaml.cs:150-173 | after the copy the two records compare as synced, and P2 keeps its colours, FSR thresholds and every field the comparison ignores but the version, which becomes 2 |
| MainWindow.SyncOfSyncedIsIdentity | smx-config/MainWindow.xaml.cs:150-173 | copying between records that already compare as synced writes P2's record back unchanged but for the version stamp |
| MainWindow.CheckConfiguringBothPads | smx-config/MainWindow.xaml.cs:116-146 | nothing happens exactly when Both is not selected, a pad is missing or the records are synced; otherwise a yes writes a P2 record synced with P1 that keeps P2's colours, and a no switches to P1 |
| MainWindow.SelectionChanged | smx-config/MainWindow.xaml.cs:88-108 | choosing the current selection does nothing; any other choice ends with a change fired without a source, and choosing P1 or P2 just stores it |
| MainWindow.SwitchToBoth | smx-config/MainWindow.xaml.cs:88-146 | switching to Both with two unsynced pads stays on Both with P2 synced and two changes fired when the user agrees, and ends on P1 with one change fired when the user declines |
| MainWindow.OnConfigurationChange | smx-config/MainWindow.xaml.cs:71-86 | the both-pads check runs only for an update flagged as a configuration change |
| DeviceConnection.Initial | sdk/Windows/SMXDeviceConnection.cpp:52-67 | a new connection has no handle, is inactive, has no device info and nothing queued or in flight |
| DeviceConnection.PacketFlags | sdk/Windows/SMXDeviceConnection.cpp:351-360 | the START flag is set exactly on the first report and END exactly on the last; HOST_CMD_FINISHED and DEVICE_INFO are never set |
| DeviceConnection.NoBitAbove | sdk/Windows/SMXDeviceConnection.cpp:144-147 | a value below 2^n has no flag bit at or above n |
| DeviceConnection.Report | sdk/Windows/SMXDeviceConnection.cpp:362-370 | an output report is 64 bytes: report ID 5, the flags, the payload length, the payload, then zeros |
| DeviceConnection.ReportCarries | sdk/Windows/SMXDeviceConnection.cpp:362-370 | a report built from a payload is well formed and its payload reads back unchanged |
| DeviceConnection.ChunkSize | sdk/Windows/SMXDeviceConnection.cpp:352 | a report carries at most 61 bytes, stays inside the command, and is full unless it reaches the end |
| DeviceConnection.FramePackets | sdk/Windows/SMXDeviceConnection.cpp:347-376 | the do-while loop always emits at least one report, even for an empty command |
| DeviceConnection.ConcatPayloads | sdk/Windows/SMXDeviceConnection.cpp:368 | no reports carry no bytes |
| DeviceConnection.PacketCountStep | sdk/Windows/SMXDeviceConnection.cpp:347-376 | taking one full report off leaves one report fewer to send |
| DeviceConnection.ConcatPayloadsCons | sdk/Windows/SMXDeviceConnection.cpp:368-374 | the bytes carried by a list of reports are the first report's payload followed by the rest's |
| DeviceConnection.FramePacketsUnfold | sdk/Windows/SMXDeviceConnection.cpp:347-376 | the reports from an offset are one report of the next chunk followed by the reports from past it |
| DeviceConnection.FramePacketsCount | sdk/Windows/SMXDeviceConnection.cpp:347-376 | a command gives ceil(remaining/61) reports, and one report when nothing remains |
| DeviceConnection.FramePacketsReports | sdk/Windows/SMXDeviceConnection.cpp:347-376 | every report is well formed, START only on the first at offset 0, END only on the last, and every report but the last is full |
| DeviceConnection.FramePacketsPayloads | sdk/Windows/SMXDeviceConnection.cpp:347-376 | the payloads of the reports add up to exactly the rest of the command |
| DeviceConnection.FramePacketsShape | sdk/Windows/SMXDeviceConnection.cpp:347-376 | count, well-formedness, flags and payload contents of the reports from any offset together |
| DeviceConnection.CommandPacketsShape | sdk/Windows/SMXDeviceConnection.cpp:340-379 | a whole command is split into ceil(n/61) reports (one if empty) whose payloads rebuild it, with START on the first and END on the last |
| DeviceConnection.SendCommand | sdk/Windows/SMXDeviceConnection.cpp:340-379 | the command's reports are queued as one pending command behind those already waiting, and nothing else changes |
| DeviceConnection.DeviceInfoRequest | sdk/Windows/SMXDeviceConnection.cpp:327-333 | the info request is one 64-byte report with report ID 5, only the DEVICE_INFO flag and no payload |
| DeviceConnection.RequestDeviceInfo | sdk/Windows/SMXDeviceConnection.cpp:319-338 | one device-info command of that single report is queued at the back and nothing else changes |
| DeviceConnection.Open | sdk/Windows/SMXDeviceConnection.cpp:33-50 | the connection holds the handle and has an info request queued whose completion marks the info received |
| DeviceConnection.StartNextCommand | sdk/Windows/SMXDeviceConnection.cpp:281-313 | nothing is sent while a command is in flight or none waits; otherwise the oldest waiting command's reports are written and it becomes the one in flight |
| DeviceConnection.ByteAt | sdk/Windows/SMXDeviceConnection.cpp:131-132 | inside the report the byte read is the report's byte |
| DeviceConnection.SignedChar | sdk/Windows/SMXDeviceConnection.cpp:142-149 | a char read from the report is a signed value in -128..127 with the same low byte |
| DeviceConnection.Resize | sdk/Windows/SMXDeviceConnection.cpp:182 | resizing keeps the leading bytes up to the new length and pads the rest with zeros |
| DeviceConnection.InfoFromPacket | sdk/Windows/SMXDeviceConnection.cpp:168-192 | the reply's player byte '1' means P2, the 16 serial bytes become 32 hex digits, and the firmware version is the little-endian 16-bit value at bytes 20-21 |
| DeviceConnection.Complete | sdk/Windows/SMXDeviceConnection.cpp:44-47 | the info request's completion marks the info received; a caller's completion is reported as run; no completion changes nothing |
| DeviceConnection.ClassifySerial | sdk/Windows/SMXDeviceConnection.cpp:137-158 | a serial report shorter than 3 bytes or whose length byte overruns it is ignored; otherwise bit 7 of the flags decides between a device-info reply and data, carrying the stated payload |
| DeviceConnection.HandleUsbPacketCases | sdk/Windows/SMXDeviceConnection.cpp:120-227 | an input report sets the 16-bit input state; a malformed serial report is ignored; an info reply fills in the device info and ends the command only while an info request is in flight; data reports are ignored while inactive |
| DeviceConnection.HandleAll | sdk/Windows/SMXDeviceConnection.cpp:102-118 | handling no reports changes nothing |
| DeviceConnection.DataReport | sdk/Windows/SMXDeviceConnection.cpp:203-213 | on an active connection a data report's payload is appended to the read buffer, and an END flag queues the joined bytes when non-empty and clears the buffer |
| DeviceConnection.HandleAllCons | sdk/Windows/SMXDeviceConnection.cpp:102-118 | handling a list of reports is handling the first and then the rest |
| DeviceConnection.JoinStep | sdk/Windows/SMXDeviceConnection.cpp:203-213 | receiving the next framed report of a command extends the half-joined buffer by that chunk, or queues the whole command at its end |
| DeviceConnection.IncomingCons | sdk/Windows/SMXDeviceConnection.cpp:120-137 | the incoming copies of a list of reports are the first one's copy followed by the rest's |
| DeviceConnection.JoinFrom | sdk/Windows/SMXDeviceConnection.cpp:203-213 | receiving a command's reports from an offset on a buffer holding its first bytes queues the whole command once the END report arrives, and nothing else changes |
| DeviceConnection.Incoming | sdk/Windows/SMXDeviceConnection.cpp:120-137 | each output report is received as the same bytes under the serial report ID |
| DeviceConnection.CommandRoundTrip | sdk/Windows/SMXDeviceConnection.cpp:203-379 | a command framed by SendCommand and received on an active connection with nothing half-read is queued whole as one read buffer; an empty command queues nothing |
| DeviceConnection.ReadPacket | sdk/Windows/SMXDeviceConnection.cpp:93-100 | returns the oldest joined packet and removes it, or nothing when none is waiting; nothing else changes |
| DeviceConnection.Close | sdk/Windows/SMXDeviceConnection.cpp:52-67 | the handle, both queues, the command in flight and the input state are dropped and the flags cleared; the half-read buffer and the device info survive |
| DeviceConnection.SetActive | sdk/Windows/SMXDeviceConnection.cpp:69-75 | only the active flag changes, to the value given |
| DeviceConnection.OpenExchange | sdk/Windows/SMXDeviceConnection.cpp:33-198 | after Open on an idle connection the info request is the first report written, and a well-formed reply fills in the device info, marks it received and leaves nothing in flight |
| Device.ByteBits | sdk/Windows/SMXDevice.cpp:25-38 | the eight bits of an output byte are the panel's bits of eight consecutive words, bit 0 first |
| Device.PanelBytes | sdk/Windows/SMXDevice.cpp:15-41 | the panel's output has exactly the requested number of bytes |
| Device.PanelBytesBits | sdk/Windows/SMXDevice.cpp:15-41 | bit j of output byte i is the panel's bit of word 8i+j, and 0 once the words run out |
| Device.MaskOfSnoc | sdk/Windows/SMXDevice.cpp:36 | or-ing the next bit into a byte adds it at the next position |
| Device.ReadDataForPanel | sdk/Windows/SMXDevice.cpp:15-41 | the nested loops produce exactly the bit-sliced bytes of the reference definition |
| Device.Int16 | sdk/Windows/SMXDevice.cpp:497 | a sensor level is a signed 16-bit value |
| Device.Levels | sdk/Windows/SMXDevice.cpp:497 | the four levels are the little-endian int16 values packed from byte 1 on |
| Device.Flags | sdk/Windows/SMXDevice.cpp:491-503 | four consecutive bit fields of a byte, one per sensor |
| Device.DecodeReading | sdk/Windows/SMXDevice.cpp:486-548 | a panel has data exactly when its header bits read 0,1,0; then the bad-sensor flags, levels, DIP nibble and wrong-jumper flags come from their bit fields, and otherwise everything stays zero |
| Device.PerSensor | sdk/Windows/SMXDevice.cpp:519-548 | per-panel rows of four laid out as panel p, sensor s at index 4p+s |
| Device.LevelColumn | sdk/Windows/SMXDevice.cpp:547-548 | the level of sensor s of panel p lands at index 4p+s |
| Device.BadSensorColumn | sdk/Windows/SMXDevice.cpp:537-540 | the bad-sensor flag of sensor s of panel p lands at index 4p+s |
| Device.JumperColumn | sdk/Windows/SMXDevice.cpp:542-545 | the wrong-jumper flag of sensor s of panel p lands at index 4p+s |
| Device.FromReadings | sdk/Windows/SMXDevice.cpp:507-548 | the test-data record holds each panel's have-data flag, DIP value, levels and flags at that panel's positions |
| Device.DecodeTestData | sdk/Windows/SMXDevice.cpp:507-548 | every one of the nine panels is decoded from the reply's words into its own slots of the record |
| Device.Reading | sdk/Windows/SMXDevice.cpp:519-523 | a panel's reading has four entries per sensor field |
| Device.ReadingHeader | sdk/Windows/SMXDevice.cpp:525-534 | a panel has data exactly when the panel's first three stream bits are 0, 1, 0 |
| Device.ShortReplyHasNoData | sdk/Windows/SMXDevice.cpp:28-34 | with fewer than two words the second header bit reads 0, so no panel has data |
| Device.UpdateEvent | sdk/Windows/SMXDevice.cpp:238-247 | the callback is told pad 1 for a P2 device and pad 0 otherwise, with the reason given |
| Device.GetConfig | sdk/Windows/SMXDevice.cpp:170-183 | a configuration set but not yet sent is what is read back; otherwise the last one read, together with whether one has been read |
| Device.SetConfig | sdk/Windows/SMXDevice.cpp:185-190 | only the wanted record and the send flag change |
| Device.GetAfterSet | sdk/Windows/SMXDevice.cpp:170-190 | reading right after setting gives back what was set |
| Device.ApplyTags | sdk/Windows/SMXDevice.cpp:198-212 | the write's completion clears the sending flag, the read-back's clears the waiting flag, and a factory reset's reports an event, nothing else |
| Device.RunCompletion | sdk/Windows/SMXDevice.cpp:118-121 | running no completion changes nothing, the info step marks the info received, and a callback runs its tag |
| Device.SendCommandLocked | sdk/Windows/SMXDevice.cpp:112-130 | without a connection the completion runs at once and nothing is queued; otherwise the command is queued |
| Device.ReadConfigCommand | sdk/Windows/SMXDevice.cpp:404-406 | the configuration is read with "G" from firmware 5 on and "g\n" before |
| Device.FactoryReset | sdk/Windows/SMXDevice.cpp:198-212 | a connected pad gets "f\n" and then a read of its configuration whose completion reports the reset; without a connection the reset is reported at once |
| Device.ForceRecalibration | sdk/Windows/SMXDevice.cpp:214-218 | a connected pad gets "C\n" queued; without a connection nothing is reported |
| Device.SetSensorTestMode | sdk/Windows/SMXDevice.cpp:220-224 | only the requested test mode changes |
| Device.GetTestData | sdk/Windows/SMXDevice.cpp:226-236 | test data is returned exactly when some has been decoded, and it is the last decoded |
| Device.WriteSizeByte | sdk/Windows/SMXDevice.cpp:325-335 | the size byte sent is 2 (the offset of flags) for master version 3 or lower and 250 otherwise |
| Device.WriteCommand | sdk/Windows/SMXDevice.cpp:322-336 | the write command is 'W' from firmware 5 on or 'w', the size byte, then the whole wanted record |
| Device.SendConfig | sdk/Windows/SMXDevice.cpp:303-363 | nothing happens unless connected, a write is pending, none is in flight, the configuration has been read and no read-back is awaited; then the write and the read-back are queued, both flags set and the wanted record taken as current |
| Device.GetAfterSendConfig | sdk/Windows/SMXDevice.cpp:170-190 | GetConfig keeps returning what was set whether or not it has been sent |
| Device.NoSecondWriteInFlight | sdk/Windows/SMXDevice.cpp:315-318 | a second SendConfig before the read-back arrives sends nothing |
| Device.WriteHandshake | sdk/Windows/SMXDevice.cpp:338-362 | once the write's and the read-back's completions have run the next write may go out |
| Device.OpenDeviceHandle | sdk/Windows/SMXDevice.cpp:61-65 | the connection takes the handle and queues the device-info request; the rest of the device is untouched |
| Device.CloseDevice | sdk/Windows/SMXDevice.cpp:67-78 | the connection is closed, the four configuration flags cleared, the stored records kept, and one update reported |
| Device.CheckActive | sdk/Windows/SMXDevice.cpp:392-407 | once the device info is in and the connection not yet active it is activated and a configuration read queued; otherwise nothing changes |
| Device.UpdateSensorTestMode | sdk/Windows/SMXDevice.cpp:410-434 | in a test mode a request goes out unless one is outstanding and has not timed out, and the request mode is remembered; only the waiting mode and the queue change |
| Device.ReplyWords | sdk/Windows/SMXDevice.cpp:457-464 | each data word is the little-endian pair of bytes from offset 3 on |
| Device.HandleSensorTestData | sdk/Windows/SMXDevice.cpp:437-552 | short or incomplete replies, unrequested replies and replies for another mode are ignored; a matching reply ends the wait and is decoded and reported exactly when the test mode has not changed |
| Device.HandleConfigPacket | sdk/Windows/SMXDevice.cpp:271-294 | a reply shorter than its size byte says is ignored; otherwise the first min(size, 250) bytes overwrite the stored record, the configuration counts as read, and an update is reported |
| Device.FullConfigPacket | sdk/Windows/SMXDevice.cpp:271-294 | a full-size reply replaces the stored record, which makes a pad with device info connected |
| Device.HandlePackets | sdk/Windows/SMXDevice.cpp:249-297 | every joined packet is consumed, leaving none waiting |
| Device.ReceiveReports | sdk/Windows/SMXDeviceConnection.cpp:102-118 | the reports read keep the device record well formed |
| Device.Update | sdk/Windows/SMXDevice.cpp:365-390 | a closed device does nothing; an open one ends the round with every joined packet handled |
| Manager.CorrectDeviceOrder | sdk/Windows/SMXManager.cpp:104-126 | the result is the two slots or the two swapped; misconfigured or already ordered slots stay, and otherwise the result has P1 first and P2 second |
| Manager.CorrectDeviceOrderSwaps | sdk/Windows/SMXManager.cpp:119-125 | slots out of order whose pads do not claim the same player are swapped |
| Manager.CorrectDeviceOrderIdempotent | sdk/Windows/SMXManager.cpp:104-126 | correcting the order a second time changes nothing |
| Manager.CommandData | sdk/Windows/SMXManager.cpp:282-303 | each command carries 9 panels of 24 colour bytes |
| Manager.SourceInRange | sdk/Windows/SMXManager.cpp:295-303 | every place of every command is filled from a byte inside the 864-byte input |
| Manager.LightsRouteEveryByte | sdk/Windows/SMXManager.cpp:284-303 | every input byte lands in the command its panel and half choose, at a position inside that command |
| Manager.LightsEveryPlaceFilled | sdk/Windows/SMXManager.cpp:284-303 | each position of each command is filled by exactly the input byte routed to it |
| Manager.LightsOrderKept | sdk/Windows/SMXManager.cpp:290-302 | bytes appended to a command keep their input order |
| Manager.LightsCommandBytes | sdk/Windows/SMXManager.cpp:305-320 | a lights command is '2' for the top halves or '3' for the bottom halves, the scaled colour bytes of its panels in order, then a newline |
| Manager.SetLights | sdk/Windows/SMXManager.cpp:244-366 | data of the wrong size is dropped; with at most one entry waiting two entries are scheduled behind it, otherwise the last two entries keep their times and get the new commands, top halves first |
| Manager.LatestLightsWin | sdk/Windows/SMXManager.cpp:322-366 | a second update before anything is sent replaces the first, keeping the first's schedule |
| Manager.SendToSlots | sdk/Windows/SMXManager.cpp:397-398 | each slot gets its own command through its device |
| Manager.ReenableAutoLights | sdk/Windows/SMXManager.cpp:368-379 | every scheduled lights entry is dropped and both pads get "S 1\n" |
| Manager.SendLightUpdates | sdk/Windows/SMXManager.cpp:382-402 | nothing is sent before the head entry's time; then each pad gets its command and only the head entry is removed, keeping the queue sorted |
| Manager.HalfSentUpdateFinishes | sdk/Windows/SMXManager.cpp:322-355 | once the first half of an update is sent, a new update does not displace the second half from the head of the queue |
| Manager.FirstFreeSlot | sdk/Windows/SMXManager.cpp:424-435 | the first slot without a handle, or none exactly when every slot has one |
| Manager.OpenInSlot | sdk/Windows/SMXManager.cpp:444-447 | opening a handle changes only the chosen slot and keeps handles distinct when no slot held it |
| Manager.AttemptConnections | sdk/Windows/SMXManager.cpp:405-451 | slots with a handle are untouched; each found device not held is opened in a free slot until none is free; handles stay distinct |
| Api.SplitLights | sdk/Windows/SMX.cpp:105-127 | a buffer is accepted exactly when it holds two pads of 16 or 25 lights, and is split into two equal halves, pad 0 first |
| Api.SplitLightsOfJoin | sdk/Windows/SMX.cpp:105-127 | splitting two equal halves of an accepted size gives them back |
| Api.SplitAgreesWithRouting | sdk/Windows/SMX.cpp:112-116 | a byte of a 16-light buffer is in pad 0's half exactly when the manager routes it to pad 0, at the same offset |
| Api.SetLights2 | sdk/Windows/SMX.cpp:105-133 | an 864-byte buffer reaches the manager; any other size leaves it unchanged |
| Api.SetLights | sdk/Windows/SMX.cpp:101-104 | the first 864 bytes are always accepted and handed to the manager's `SetLights`, which schedules the update |
| Api.SetLightsReadsFixedPrefix | sdk/Windows/SMX.cpp:101-104 | only the first 864 bytes of the caller's array matter |
| Api.SplitPlatformLights | sdk/Windows/SMX.cpp:136-149 | only 264 bytes are accepted, split into two 132-byte halves, pad 0 first |
| Api.SplitPlatformLightsOfJoin | sdk/Windows/SMX.cpp:136-149 | splitting two 132-byte halves gives them back |
| Api.Start | sdk/Windows/SMX.cpp:60-73 | a started SDK keeps its manager and callback; a stopped one starts with the ones given |
| Api.Stop | sdk/Windows/SMX.cpp:75-81 | the SDK is stopped afterwards |
| Api.StartIdempotent | sdk/Windows/SMX.cpp:60-73 | a second start is ignored |
| Api.StartAfterStop | sdk/Windows/SMX.cpp:60-81 | after a stop a start takes effect again |
| DeviceSearch.CString | sdk/Windows/SMXDeviceSearch.cpp:102-110 | the wide string read is the buffer's NUL-free prefix ending at the first NUL or at the end |
| DeviceSearch.CStringUnique | sdk/Windows/SMXDeviceSearch.cpp:102-110 | any NUL-free prefix ending at a NUL or the end is that string |
| DeviceSearch.OpenUsbDevice | sdk/Windows/SMXDeviceSearch.cpp:65-117 | a device is kept exactly when it opened, its attributes and product string were read, its IDs are 2341:8037 and its product string is "StepManiaX"; the handle returned is the one opened |
| DeviceSearch.ProductNameAccepted | sdk/Windows/SMXDeviceSearch.cpp:102-114 | the product check passes exactly when the buffer spells "StepManiaX" followed by its end or a NUL |
| DeviceSearch.Handles | sdk/Windows/SMXDeviceSearch.cpp:152-156 | the handles returned are exactly those held for some path |
| DeviceSearch.GetDevices | sdk/Windows/SMXDeviceSearch.cpp:119-157 | vanished paths are dropped, only paths new since the last scan are probed and recorded when they are pads, other entries kept, the scan remembered, and every held handle returned |
| DeviceSearch.GetDevicesConsistent | sdk/Windows/SMXDeviceSearch.cpp:119-157 | after a scan every remembered device is in that scan |
| DeviceSearch.GetDevicesProbesOnlyNew | sdk/Windows/SMXDeviceSearch.cpp:133-148 | two probes agreeing on the new paths give the same result |
| DeviceSearch.GetDevicesStable | sdk/Windows/SMXDeviceSearch.cpp:119-157 | rescanning the same paths changes nothing whatever the probe would now say |
| DeviceSearch.DeviceWasClosed | sdk/Windows/SMXDeviceSearch.cpp:159-174 | entries holding the closed handle are dropped and their paths forgotten; every other entry and path is kept |
| DeviceSearch.DeviceWasClosedConsistent | sdk/Windows/SMXDeviceSearch.cpp:159-174 | closing keeps the search consistent |
| DeviceSearch.ReopenedAfterClose | sdk/Windows/SMXDeviceSearch.cpp:119-174 | a closed pad still present is probed again by the next scan and its new handle recorded |
| GifStream.Remaining | sdk/Windows/SMXGif.cpp:66-74 | nothing is left to read exactly when the position is at or past the end |
| GifStream.ReadByte | sdk/Windows/SMXGif.cpp:66-74 | a byte is read exactly when one remains: the byte at the position, which then advances by one; past the end it is an error |
| GifStream.ReadLe16 | sdk/Windows/SMXGif.cpp:76-81 | two bytes are read low byte first, failing exactly when fewer than two remain |
| GifStream.ReadLe16OfBytes | sdk/Windows/SMXGif.cpp:76-81 | a 16-bit field written little-endian reads back as itself |
| GifStream.ReadBytes | sdk/Windows/SMXGif.cpp:83-88 | the next count bytes in order, failing exactly when fewer remain |
| GifStream.Skip | sdk/Windows/SMXGif.cpp:90-93 | the position moves by the count without reading, possibly past the end |
| GifStream.SkipBlocks | sdk/Windows/SMXGif.cpp:386-391 | skipping sub-blocks always makes progress and stays on the same data |
| GifStream.SkipBlocksOfEncoding | sdk/Windows/SMXGif.cpp:309-317 | skipping well-formed sub-blocks lands just after their zero terminator |
| GifStream.StartBits | sdk/Windows/SMXGif.cpp:100-106 | a new code reader holds no bits and reads from the given position |
| GifStream.ShiftInFits | sdk/Windows/SMXGif.cpp:122 | or-ing a byte above the buffered bits equals adding it, and the buffer grows by 8 bits |
| GifStream.Fill | sdk/Windows/SMXGif.cpp:111-125 | buffering stops with at least the bits asked for, reads a byte whenever it had too few, and keeps the buffer free of bits above its count |
| GifStream.SplitBits | sdk/Windows/SMXGif.cpp:128-130 | the low k bits and the bits above them fit their widths |
| GifStream.TakeBits | sdk/Windows/SMXGif.cpp:128-130 | the code is the low k buffered bits, and code plus the shifted remainder rebuild the old buffer |
| GifStream.ReadCode | sdk/Windows/SMXGif.cpp:109-133 | a code read at width k is below 2^k and comes least significant bit first from the sub-block bytes |
| GifStream.ReadCodeLsbFirst | sdk/Windows/SMXGif.cpp:109-133 | with enough bits buffered no byte is read and the code is the buffer's low bits |
| GifStream.FirstCodeOfBlock | sdk/Windows/SMXGif.cpp:109-133 | the first code of an image is the low bits of its first data byte, after the sub-block length |
| GifStream.ZeroBlockIsError | sdk/Windows/SMXGif.cpp:113-119 | a zero sub-block length where more bits are needed is an error |
| GifStream.Flush | sdk/Windows/SMXGif.cpp:136-149 | the rest of the current sub-block and any later ones up to the terminator are skipped |
| Lzw.Reset | sdk/Windows/SMXGif.cpp:179-185 | a fresh or cleared dictionary is one bit wider than the code size, empty, with no previous code, and next free slot clear+2 |
| Lzw.Pow2Monotone | sdk/Windows/SMXGif.cpp:238-248 | a wider code has at least as many slots |
| Lzw.ResetValid | sdk/Windows/SMXGif.cpp:207-215 | a reset dictionary is valid for every accepted code size |
| Lzw.StringOf | sdk/Windows/SMXGif.cpp:228-235 | every code stands for at least one byte |
| Lzw.Step | sdk/Windows/SMXGif.cpp:217-252 | a code beyond the next free slot, or the next free slot with no previous code, is an error; a known code gives its string, the next free slot the previous string plus its first byte; the table only grows by that entry, and the width only grows |
| Lzw.OnCode | sdk/Windows/SMXGif.cpp:202-226 | the end code stops, the clear code resets the dictionary, and any other code is a data step, failing exactly as the step does |
| Lzw.DecodeLoop | sdk/Windows/SMXGif.cpp:195-253 | decoding only appends to what is already output and reads forward on the same data |
| Lzw.DecodeImageData | sdk/Windows/SMXGif.cpp:160-259 | a frame's image data is read forward from its code size byte through the skipped trailing sub-blocks |
| Lzw.DecodeExample | sdk/Windows/SMXGif.cpp:177-259 | the codes clear, 1, 6, 6, end at code size 2 decode to five 1 bytes, through the next-free-slot case and a width change |
| GifImage.Init | sdk/Windows/SMXGif.cpp:17-22 | a new image has the given size and width×height pixels, all the default colour |
| GifImage.Clear | sdk/Windows/SMXGif.cpp:24-29 | every pixel takes the one colour and the size is kept |
| GifImage.ApplyWrites | sdk/Windows/SMXGif.h:39 | pixel writes succeed exactly when every one lands inside the pixel buffer, and keep its size |
| GifImage.ApplyWritesAt | sdk/Windows/SMXGif.h:39 | after the writes each pixel holds the last colour written to it, or its old colour |
| GifImage.LastWriteOnly | sdk/Windows/SMXGif.cpp:507-524 | a pixel only one write can touch gets that write's colour, or keeps its own when the write leaves it alone |
| GifImage.LastWriteNone | sdk/Windows/SMXGif.cpp:507-524 | a pixel no write touches keeps its colour |
| GifImage.ApplyOwnColors | sdk/Windows/SMXGif.cpp:42-49 | writes that put back each pixel's own colour change nothing |
| GifImage.RectWrites | sdk/Windows/SMXGif.cpp:42-49 | a w×h rectangle is written in row order, one write per pixel |
| GifImage.RectIndexInjective | sdk/Windows/SMXGif.cpp:42-49 | inside a rectangle that fits the canvas different pixels have different buffer indices |
| GifImage.RowColumnUnique | sdk/Windows/SMXGif.h:38-39 | a row and column inside the width determine the buffer index and back |
| GifImage.RectIndexInside | sdk/Windows/SMXGif.cpp:31-49 | a rectangle that fits the canvas has all its indices inside the buffer |
| GifImage.Crop | sdk/Windows/SMXGif.cpp:31-40 | the cropped image is w×h and holds the canvas's pixels of the rectangle in row order; a rectangle past the buffer is an error |
| GifImage.Blit | sdk/Windows/SMXGif.cpp:42-49 | blitting keeps the canvas's size |
| GifImage.BlitOfCrop | sdk/Windows/SMXGif.cpp:31-49 | putting back what was cropped from an image restores that image |
| GifImage.CropOfBlit | sdk/Windows/SMXGif.cpp:31-49 | cropping the rectangle just blitted gives back the image written there |
| Gif.TableSize | sdk/Windows/SMXGif.cpp:343-350 | a colour table of size field n has 2^(n+1) colours, between 2 and 256 |
| Gif.ReadPalette | sdk/Windows/SMXGif.cpp:296-307 | count colours are read as red, green, blue, each made opaque, the rest of the 256 slots left empty; too few bytes is an error |
| Gif.TableBytes | sdk/Windows/SMXGif.cpp:296-307 | a stored colour table is three bytes per colour, red first |
| Gif.ReadPaletteOfTable | sdk/Windows/SMXGif.cpp:296-307 | reading a stored colour table gives back its colours made opaque |
| Gif.ReadDescriptor | sdk/Windows/SMXGif.cpp:433-437 | an image descriptor is four 16-bit fields and a flags byte, nine bytes in all |
| Gif.PixelColor | sdk/Windows/SMXGif.cpp:512-522 | a pixel of the transparent index is left alone, any other takes its palette colour |
| Gif.DisposeImage | sdk/Windows/SMXGif.cpp:477-505 | disposal 2 saves a rectangle of the image's size cleared to transparent when a transparent index is set and to the background colour otherwise, 3 the crop of the canvas, and every other value nothing |
| Gif.ImagePalette | sdk/Windows/SMXGif.cpp:449-458 | an image uses its own colour table when its flags say so, otherwise the global one, and fails with neither |
| Gif.StartCanvas | sdk/Windows/SMXGif.cpp:460-468 | the first frame starts on a canvas cleared to transparent when a transparent index is set and to the background colour otherwise; later frames draw over the previous canvas |
| Gif.PixelWrites | sdk/Windows/SMXGif.cpp:507-524 | the image's w×h decoded indices are drawn in row order into its rectangle |
| Gif.DrawPixels | sdk/Windows/SMXGif.cpp:507-524 | drawing keeps the canvas size and fails exactly when a non-transparent pixel lands outside the buffer |
| Gif.DrawPixelsAt | sdk/Windows/SMXGif.cpp:507-524 | inside a rectangle that fits, each pixel takes its palette colour and a transparent one keeps the canvas colour |
| Gif.DrawImage | sdk/Windows/SMXGif.cpp:507-531 | the frame shown is the canvas with the image drawn; without a disposal the kept canvas is that same frame |
| Gif.DecodeFrameImage | sdk/Windows/SMXGif.cpp:431-532 | a decoded image gives a frame of the screen's size and reads forward in the file |
| Gif.NoPaletteFails | sdk/Windows/SMXGif.cpp:454-458 | an image with neither a global nor a local colour table cannot be decoded |
| Gif.TooFewPixelsFails | sdk/Windows/SMXGif.cpp:469-473 | an image whose decompressed data holds fewer indices than its rectangle has pixels cannot be decoded |
| Gif.AddFrame | sdk/Windows/SMXGif.cpp:405-412 | a frame equal to the last one lengthens it by its duration; any other is appended |
| Gif.AddFrameKeeps | sdk/Windows/SMXGif.cpp:405-412 | merging keeps consecutive frames distinct and keeps the total duration |
| Gif.AddFrameShaped | sdk/Windows/SMXGif.cpp:399-412 | adding a frame of the screen's size keeps every frame that size |
| Gif.ReadGraphicControl | sdk/Windows/SMXGif.cpp:366-383 | the graphic control extension changes only the transparent index, the delay and the disposal; the delay is the little-endian field after the flags, the disposal is bits 2 to 5 of the flags, and a transparent index is read exactly when bit 0 is set |
| Gif.SkipPackets | sdk/Windows/SMXGif.cpp:385-391 | skipping an extension's sub-blocks always makes progress |
| Gif.SkipPacketsIsSkipBlocks | sdk/Windows/SMXGif.cpp:309-391 | reading an extension's sub-blocks one by one ends and fails where skipping over them does |
| Gif.Blocks | sdk/Windows/SMXGif.cpp:358-426 | the frames produced keep those before, have no two equal neighbours, and all have the screen's size |
| Gif.ReadScreen | sdk/Windows/SMXGif.cpp:327-350 | the screen descriptor is seven bytes, followed by the global colour table exactly when the flags' top bit is set |
| Gif.DecodeGif | sdk/Windows/SMXGif.cpp:534-545 | a file decodes only if it starts with GIF87a or GIF89a, and its frames have the screen's size with no two equal neighbours |
| Gif.UnknownBlockFails | sdk/Windows/SMXGif.cpp:424-425 | an unknown block type fails the decode |
| Gif.TrailerEnds | sdk/Windows/SMXGif.cpp:419-423 | the trailer ends the loop with the frames so far |
| Gif.ImageBlockStep | sdk/Windows/SMXGif.cpp:393-418 | an image block makes a frame of ten times the graphic control delay in milliseconds; a frame equal to the last only lengthens it and the loop keeps its graphic control values and frame count, while a new frame is appended, the values go back to the saved ones and the frame count grows by one |
| Gif.EmptyGif | sdk/Windows/SMXGif.cpp:319-427 | a GIF89a header, a 1×1 screen without a colour table and the trailer decode to no frames |
| PanelAnimation.Pixel16 | sdk/Windows/SMXPanelAnimation.cpp:245-262 | light k of a panel in a 14×15 frame comes from the 4×4 block at (5·column, 5·row), row by row, inside the frame |
| PanelAnimation.Pixel25 | sdk/Windows/SMXPanelAnimation.cpp:266-283 | light k of a panel in a 23×24 frame comes from the even pixels of its 7×7 block for the 4×4 grid, then the odd pixels for the 3×3 grid, inside the frame |
| PanelAnimation.Pixel16Inverse | sdk/Windows/SMXPanelAnimation.cpp:12-32 | in a 14×15 frame each light's pixel tells its panel and light back, and none lies on a spacer line or the flag row |
| PanelAnimation.Pixel25Inverse | sdk/Windows/SMXPanelAnimation.cpp:264-283 | in a 23×24 frame each light's pixel tells its panel and light back: even pixels are the 4×4 grid, odd ones the 3×3 grid, and no light is on a spacer or the flag row |
| PanelAnimation.Pixel25Even | sdk/Windows/SMXPanelAnimation.cpp:274-277 | the first 16 lights are the even pixels of the panel's block |
| PanelAnimation.Pixel25Odd | sdk/Windows/SMXPanelAnimation.cpp:279-282 | the last 9 lights are the odd pixels of the panel's block |
| PanelAnimation.Cell8 | sdk/Windows/SMXPanelAnimation.cpp:270-282 | a pixel's 8-pixel stretch, position and parity can be read back |
| PanelAnimation.Split8 | sdk/Windows/SMXPanelAnimation.cpp:270-272 | a position inside an 8-pixel stretch reads back with its parity |
| PanelAnimation.PanelGraphic16 | sdk/Windows/SMXPanelAnimation.cpp:245-262 | a 16-light graphic is the panel's 16 pixels followed by 9 transparent lights |
| PanelAnimation.PanelGraphic25 | sdk/Windows/SMXPanelAnimation.cpp:266-283 | a 25-light graphic is the panel's 25 pixels in light order |
| PanelAnimation.FirstLoopFrame | sdk/Windows/SMXPanelAnimation.cpp:306-314 | the first frame from a point on whose bottom-left pixel is opaque, or none exactly when no later frame has it |
| PanelAnimation.FrameGraphic | sdk/Windows/SMXPanelAnimation.cpp:316-323 | every frame gives the panel a graphic of 25 lights, in the layout the first frame's width chooses |
| PanelAnimation.LoopFrameAsWrittenIsZero | sdk/Windows/SMXPanelAnimation.cpp:300-341 | as written, the loop frame is always 0 whatever the flag row says |
| PanelAnimation.LoopFrame | sdk/Windows/SMXPanelAnimation.cpp:306-341 | the loop frame is a frame of the animation: the first flagged frame, or 0 when none before it is flagged |
| PanelAnimation.LoopFrameFindsFlag | sdk/Windows/SMXPanelAnimation.cpp:306-314 | a first flagged frame becomes the loop frame, which the as-written scan misses whenever it is not frame 0 |
| PanelAnimation.Load | sdk/Windows/SMXPanelAnimation.cpp:296-342 | one 25-light graphic and one duration per frame; the loop frame is the first frame whose flag pixel is opaque, or 0 when none is; 16-light frames leave the last 9 lights transparent |
| PanelAnimation.LoadReadsPixel | sdk/Windows/SMXPanelAnimation.cpp:245-323 | each light of a loaded graphic is the frame's pixel it comes from, or transparent for the missing 3×3 grid of a 16-light frame |
| PanelAnimation.FramesShapedFit | sdk/Windows/SMXPanelAnimation.cpp:356-362 | decoded frames all the screen's size are accepted when the first is 14×15 or 23×24 |
| PanelAnimation.LoadGif | sdk/Windows/SMXPanelAnimation.cpp:345-376 | loading succeeds exactly when the GIF decodes to frames of an accepted size, and then loads the frames for each of the nine panels; an unreadable GIF gives its error message |
| PanelAnimation.GetAnimationFrame | sdk/Windows/SMXPanelAnimation.cpp:73-84 | the current graphic while playing in range, and nothing when stopped or out of range |
| PanelAnimation.Play | sdk/Windows/SMXPanelAnimation.cpp:87-90 | playing resumes from the current frame |
| PanelAnimation.Rewind | sdk/Windows/SMXPanelAnimation.cpp:100-104 | rewinding goes back to frame 0 and keeps the play state |
| PanelAnimation.Stop | sdk/Windows/SMXPanelAnimation.cpp:93-97 | stopping rewinds, and a stopped animation shows nothing |
| PanelAnimation.PlayAfterStop | sdk/Windows/SMXPanelAnimation.cpp:87-104 | stopping and then playing starts over at the first graphic |
| PanelAnimation.Update | sdk/Windows/SMXPanelAnimation.cpp:107-142 | a stopped or empty animation stays put, and a playing one with a valid loop frame always ends on a frame in range |
| PanelAnimation.UpdateAdvances | sdk/Windows/SMXPanelAnimation.cpp:125-141 | once the frame's time has passed the next frame follows and the last wraps to the loop frame; before that nothing changes |
| PanelAnimation.LoadedStaysInRange | sdk/Windows/SMXPanelAnimation.cpp:107-142 | a loaded animation stays in range however it is played |
| PanelAnimation.OverlayLights | sdk/Windows/SMXPanelAnimation.cpp:149-168 | the graphic's first 25 opaque lights overwrite the panel's three colour bytes, transparent lights keep what is under them, and an empty graphic changes nothing |
| PanelAnimation.OverlayIdempotent | sdk/Windows/SMXPanelAnimation.cpp:149-168 | overlaying a graphic a second time changes nothing more |
| PanelAnimation.GetLightsCommand | sdk/Windows/SMXPanelAnimation.cpp:171-217 | 9 panels of 75 bytes; each panel shows its released animation over black, and when pressed either the pressed animation over it or the step colour on every light |
| PanelAnimation.PanelLights | sdk/Windows/SMXPanelAnimation.cpp:185-213 | one panel's 75 bytes follow the released, pressed or step-colour rule |
| AnimationUpload.GetColorIndex | sdk/Windows/SMXPanelAnimationUpload.cpp:117-132 | a transparent colour gets index 15; an opaque colour gets the first of the 15 palette entries with the same red, green and blue, or 0 when no entry matches |
| AnimationUpload.CreateUploadPackets | sdk/Windows/SMXPanelAnimationUpload.cpp:311-332 | the packets tile the block from offset 0 in 240-byte steps, their sizes add up to the block size, there are ceil(size/240) of them and only the last is marked final |
| AnimationUpload.CutBlock | sdk/Windows/SMXPanelAnimationUpload.cpp:316-330 | every packet but the last carries a full 240 bytes and the last one ends exactly at the end of the block |
| AnimationUpload.ChunkCount | sdk/Windows/SMXPanelAnimationUpload.cpp:316-329 | n full packets plus a last packet of 1 to 240 bytes make ceil(size/240) packets |
| AnimationUpload.PacketHeader | sdk/Windows/SMXPanelAnimationUpload.cpp:84-105 | a packet header has the packed struct's fixed size and a header plus a full payload fits the 255-byte length a command can carry |
| AnimationUpload.ParsePacketHeader | sdk/Windows/SMXPanelAnimationUpload.cpp:84-105 | reading a header back gives the packet it came from, except that the one-byte offset field keeps only the low byte of the offset |
| AnimationUpload.TimingOf | sdk/Windows/SMXPanelAnimationUpload.cpp:253-258 | an animation's timing lists 64 entries: the graphic numbers from `first` on for each frame, then 0xFF for the unused entries |
| AnimationUpload.MasterTimings | sdk/Windows/SMXPanelAnimationUpload.cpp:226-271 | succeeds exactly when neither animation has more than 64 frames; the pressed animation's graphics are numbered after the released ones and the loop frame keeps its low byte |
| AnimationUpload.PackGraphics | sdk/Windows/SMXPanelAnimationUpload.cpp:290-301 | packing succeeds exactly when every new slot number stays within the bound, and it then uses the next `count` slots |
| AnimationUpload.PackPanel | sdk/Windows/SMXPanelAnimationUpload.cpp:274-308 | a panel is accepted exactly when both palettes fit and every graphic's slot is within the bound; a released palette that does not fit names the panel in the error |
| AnimationUpload.PackPanelAsWritten | sdk/Windows/SMXPanelAnimationUpload.cpp:297 | the packing as written checks slot numbers against 64 instead of 63 |
| AnimationUpload.PackPanelAsWrittenOverflows | sdk/Windows/SMXPanelAnimationUpload.cpp:247-301 | 33 released and 32 pressed frames pass the timing check and the packing as written, which then uses 65 slots of 64 |
| AnimationUpload.PackPanelGraphics | sdk/Windows/SMXPanelAnimationUpload.cpp:274-308 | with the corrected bound a panel is accepted exactly when both palettes fit and its graphics take no more than the 64 slots |
| AnimationUpload.CheckUpload | sdk/Windows/SMXPanelAnimationUpload.cpp:341-365 | the upload is refused when an animation type is not loaded; otherwise it passes exactly when the timings succeed and every panel's graphics fit the 64 graphic slots (the corrected bound), and it then returns the timings |
| AnimationUpload.CheckPanels | sdk/Windows/SMXPanelAnimationUpload.cpp:359-365 | no error is reported exactly when every panel from `from` on can be packed into the 64 graphic slots (the corrected bound) |
| AnimationUpload.AppendInOrder | sdk/Windows/SMXPanelAnimationUpload.cpp:370-382 | appending the next block, of the right type and panel, keeps the blocks in the order the upload sends them |
| AnimationUpload.PrepareUpload | sdk/Windows/SMXPanelAnimationUpload.cpp:341-395 | succeeds exactly when the checks pass and otherwise fails with their error; the 20 blocks (a timing block and nine panel blocks per type) come in order and make 74 commands |
| AnimationUpload.ProgressAsWritten | sdk/Windows/SMXPanelAnimationUpload.cpp:412-419 | the progress as written is undefined exactly when there is a single command, because it divides by zero |
| AnimationUpload.ProgressAsWrittenSingleCommand | sdk/Windows/SMXPanelAnimationUpload.cpp:412-419 | with one command the progress as written divides by zero |
| AnimationUpload.Progress | sdk/Windows/SMXPanelAnimationUpload.cpp:400-428 | the progress is at most 100, reaches 100 exactly at the last command, and matches the source's formula whenever that formula is defined |
| AnimationUpload.ProgressMonotone | sdk/Windows/SMXPanelAnimationUpload.cpp:400-428 | the progress never goes back as later commands complete |

## Left out

- Threads, locks, wake-up events and the I/O thread of the SDK: each transition is modelled as one sequential step.
- Clocks: the time a lights command is due, the test-mode request timeout and whether an animation frame's duration has passed are parameters.
- HID reads, writes and their completions: the reports read are a parameter, and a write is recorded as the packets sent.
- Opening, enumerating and probing HID devices: the scan result and the probe are parameters of `DeviceSearch`.
- Logging and the log callback: a rejected call only changes nothing.
- User callbacks: they are modelled as the events a call reports.
- The configuration tool's UI: the MessageBox answer is a parameter, and the hand-off to the UI thread is left out.
- Floating point: the brightness scale of the lights (0.6666 in the source) is a parameter. The colour conversions of the import and export are parameters. Durations are whole milliseconds; snapping a 30 or 40 ms GIF delay to 1/30 s is left out.
- The JSON writer's number formatting of non-integers: it goes through the runtime's floating-point formatting.
- `get_frame_delays` of the upload: it does not terminate for a frame of one second or more, and its bytes are not sent in a checkable form. The timing blocks are modelled without their delays.
- `CreatePalette` and `CreatePackedGraphic`: whether a palette fits in 15 colours is a parameter. The bytes of the graphics and timing blocks are left out; only the packet metadata is modelled.
- `CreateUploadPackets` with a block size of 0: the upload never cuts an empty block.
- The cached list of custom sensors in the configuration tool: it is always the parse of the stored settings text.
- A settings import that raises part-way: the settings it had already written before the exception are not kept.
- `GetPreset` on a version-1 record: the source syncs the caller's record in place while classifying it. The model returns the classification only.
- The GIF decoder's undefined behaviour: an initial LZW code size of 12 bits or more is a decoding error (`Lzw.MaxCodeBits`), even for a stream that would never write past the dictionary; colour indices outside the canvas, and bit fields combined with `|` where the fields cannot overlap (modelled as `+`).
- Interlaced GIF images: they are decoded row by row as if not interlaced, as the decoder does.
- The report-3 input-state packet shorter than 3 bytes: missing bytes read as 0.
- A negative length byte in a serial report: the report is ignored.
- `AttemptConnections`: a handle that fails to open is not modelled.
- `SMX_SetLights2` with a 25-light buffer: the entry point accepts it, but the manager's `SetLights` drops every length but 864, so such a buffer never reaches a pad.
- `SMX_SetOnlySendLightsOnChange`, `SMX_SetSerialNumbers`, `SMX_GetInfo` and the other accessor entry points: they forward to the device or the manager, and the manager operations they reach are not part of this model.
- Device.ReceiveReports: states only that the device record stays well formed; what each report does is stated by `DeviceConnection.HandleUsbPacketCases`, `DeviceConnection.HandleAll` and the join lemmas.
- Device.HandlePackets: states that every joined packet is consumed; the effect of each packet is stated by `Device.HandleConfigPacket` and `Device.HandleSensorTestData`.
- Device.Update: read and write errors are not modelled; the contract states the closed case and that the joined packets are all handled.
- Gif.Blocks: states the shape of the frames produced; the effect of an image block (the frame's duration, the merge and the reset to the saved graphic control values) is stated by `Gif.ImageBlockStep`, of the trailer by `Gif.TrailerEnds`, of an unknown block by `Gif.UnknownBlockFails`, and of an extension's parts by `Gif.ReadGraphicControl` and `Gif.SkipPackets`.
- The JSON reader's conversion to `double`: numbers are kept as exact decimals, so the rounding of `Double.TryParse` is not modelled, and neither are the `(int)` and `(Byte)` casts of values outside those types' ranges.
- Json.GetIntAt: truncation toward zero is stated for every number; the source's `(int)` cast of a double outside the 32-bit range is not modelled.
- Json.GetByteAt: the low 8 bits of the truncated value are stated for every number; the source's `(Byte)` cast defines them only for values in range, and the double rounding before it is not modelled.
- PanelAnimation.Load: uses the loop frame the comments describe (the first flagged frame), not the 0 that the scan as written always leaves; `PanelAnimation.LoopFrameAsWrittenIsZero` models the scan as written (see Findings).
- AnimationUpload.CheckPanels: refuses a panel whose two animations need 65 graphics, which the source's bound lets through into slot 64 of its 64-slot array; the model keeps the corrected bound (see Findings, `AnimationUpload.PackPanelAsWrittenOverflows`).
- AnimationUpload.CheckUpload: inherits the corrected graphics bound of `AnimationUpload.CheckPanels`, so an upload of 65 graphics on one panel fails with the too-many-frames error instead of writing past the array.
- AnimationUpload.PrepareUpload: inherits the corrected graphics bound of `AnimationUpload.CheckUpload`.
- DeviceSearch.GetDevices: returns the handles as a set; the source returns them in path order, and `Manager.AttemptConnections` fills free slots in the order of its `found` sequence, which is a parameter here.

## Findings

| source | as written | input that shows it | evidently intended | confidence | as-written member | corrected member |
|---|---|---|---|---|---|---|
| sdk/Windows/SMXPanelAnimation.cpp:312-313 | the loop frame is set only when it is already set (`!= -1`), so it never leaves its initial value | any 14×15 GIF whose first frame with an opaque bottom-left pixel is frame 1 or later | the first flagged frame becomes the loop frame (`== -1`) | not executed | PanelAnimation.LoopFrameAsWrittenIsZero | PanelAnimation.LoopFrameFindsFlag |
| sdk/Windows/SMXPanelAnimationUpload.cpp:297 | a graphic is refused only when its slot number is past 64 (`>`) | 33 released and 32 pressed frames: the 65th graphic goes to slot 64 of the 64 slots 0 to 63 | refuse slot numbers of 64 and above (`>=`) | not executed | AnimationUpload.PackPanelAsWrittenOverflows | AnimationUpload.PackPanelGraphics |
| sdk/Windows/SMXPanelAnimationUpload.cpp:417-419 | the progress divides by the number of commands minus one | an upload of a single command divides by zero; the upload built here always has 74 commands | report 100 when the only command is sent | not executed | AnimationUpload.ProgressAsWrittenSingleCommand | AnimationUpload.ProgressMonotone |
| smx-config/ConfigPresets.cs:142-147 | the check syncs a copy that shares the caller's panel arrays, so it always finds the record synced, and it also syncs the caller's record | a record whose left panel differs from its down panel | compare with a synced deep copy and leave the caller's record alone | not executed | Presets.AsWrittenSyncCheckMisreports | Presets.SyncedIffFixedPoint |
