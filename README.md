# Catroid: field order for XML serialisation, and the Phiro robot's command frames

This project models two pieces of Catroid in Dafny and proves properties of
them.

**Field order.** `CatroidFieldKeySorter` decides the order in which the
XStream serialiser writes an object's fields. It receives the class being
written and a map from field keys to values, and returns an ordered map:

- Project, Scene and Sprite have hand-written orders.
  - A Project packs the seven fields it lists at the front of a slot array, in iteration order.
  - A Scene and a Sprite put each listed field at a fixed slot of an array as long as the map.
  - The array is then put, element by element, into an insertion-ordered map. Unfilled slots become a single null key.
  - A fixed slot past the end of the array is an out-of-bounds error.
- Any other class is put into a `TreeMap`. Its comparator orders by field depth, then by `String.compareTo` on the field's XML alias, or on its name when there is none.

Modules:

- `StringOrder`: Java's `compareTo` and the lexicographic order it decides.
- `OrderRetainingMaps`: the insertion-ordered map, as a sequence of pairs.
- `FieldKeySorter`: the comparator, `TreeMap.putAll`, the three slot orders and the `sort` dispatch.
- `FieldKeySorterExamples`: worked instances.

**Phiro frames.** The Phiro robot is driven over a Firmata connection. The
test `PhiroImplTest` fixes the pins the controller uses and the frames each
operation writes. It also fixes how a speed in percent becomes a PWM value.

- `Firmata` has the three commands that are sent, their frames, and a decoder. The decoder is proved to invert the encoder.
- `PhiroDevice` has a `Phiro` class whose operations append frames to `sent`, the log of everything written to the connection.
  - A tone schedules a stop frame. A clock event, `Elapse`, fires the stops that fall due. `Disconnect` cancels them.
  - Each test of `PhiroImplTest` is a scenario method whose postcondition is the exact byte sequence the test expects.

## Model

| member | source | states |
|---|---|---|
| StringOrder.CompareToZero | catroid/src/main/java/org/catrobat/catroid/io/CatroidFieldKeySorter.java:71 | `compareTo` of two names is zero exactly when they are the same string |
| StringOrder.CompareToNegative | catroid/src/main/java/org/catrobat/catroid/io/CatroidFieldKeySorter.java:71 | `compareTo` is negative exactly when the first string precedes the second lexicographically: a proper prefix, or a smaller character at the first difference (an independent definition) |
| StringOrder.CompareToAntisymmetric | catroid/src/main/java/org/catrobat/catroid/io/CatroidFieldKeySorter.java:71 | swapping the strings negates `compareTo` |
| StringOrder.CompareToTransitive | catroid/src/main/java/org/catrobat/catroid/io/CatroidFieldKeySorter.java:71 | `compareTo` < 0 is transitive |
| OrderRetainingMaps.Put | catroid/src/main/java/org/catrobat/catroid/io/CatroidFieldKeySorter.java:128 | `put` keeps the keys in first-put order: a present key keeps its place and takes the new value, an absent key is appended; every other entry is unchanged and keys stay distinct |
| OrderRetainingMaps.Dedup | catroid/src/main/java/org/catrobat/catroid/io/CatroidFieldKeySorter.java:127-129 | the keys that a run of puts leaves: each element of the run occurs exactly once, and nothing else occurs |
| OrderRetainingMaps.DedupOfDistinct | catroid/src/main/java/org/catrobat/catroid/io/CatroidFieldKeySorter.java:127-129 | a run of distinct keys is kept as it is |
| FieldKeySorter.NameOrAlias | catroid/src/main/java/org/catrobat/catroid/io/CatroidFieldKeySorter.java:80-95 | the alias of an annotated field; the field name for an unannotated field and for a field the lookup cannot find |
| FieldKeySorter.CompareMeaning | catroid/src/main/java/org/catrobat/catroid/io/CatroidFieldKeySorter.java:64-74 | the comparator is negative exactly when the first key is shallower, or equally deep with a lexicographically smaller name or alias; it is zero exactly when depth and name or alias agree; it is antisymmetric |
| FieldKeySorter.CompareTransitive | catroid/src/main/java/org/catrobat/catroid/io/CatroidFieldKeySorter.java:61-75 | the comparator's "less than" is transitive, so it is a total order on (depth, name or alias) |
| FieldKeySorter.TreeInsertElements | catroid/src/main/java/org/catrobat/catroid/io/CatroidFieldKeySorter.java:76 | after one `TreeMap.put`: the entries with other ranks are unchanged, and exactly one entry has the new key's rank. That entry keeps the resident key, or the new key if none was resident, and holds the new value |
| FieldKeySorter.TreeInsertAscending | catroid/src/main/java/org/catrobat/catroid/io/CatroidFieldKeySorter.java:76 | `TreeMap.put` keeps the entries strictly ascending under the comparator |
| FieldKeySorter.TreeInsertRanks | catroid/src/main/java/org/catrobat/catroid/io/CatroidFieldKeySorter.java:76 | `TreeMap.put` adds the new key's rank to the ranks the map holds and no other |
| FieldKeySorter.TreePutAllShape | catroid/src/main/java/org/catrobat/catroid/io/CatroidFieldKeySorter.java:61-77 | after `putAll` the TreeMap is strictly ascending and holds exactly the ranks of the input keys |
| FieldKeySorter.TreePutAllEntry | catroid/src/main/java/org/catrobat/catroid/io/CatroidFieldKeySorter.java:61-77 | each TreeMap entry after `putAll` holds the first input key of its rank and the last input value put under that rank |
| FieldKeySorter.TreePutAllFacts | catroid/src/main/java/org/catrobat/catroid/io/CatroidFieldKeySorter.java:61-77 | the TreeMap after `putAll` is strictly ascending and has one entry per (depth, name or alias) of the input. Each entry holds the first input key of that rank and the last value put under it |
| FieldKeySorter.AscendingRanksDistinct | catroid/src/main/java/org/catrobat/catroid/io/CatroidFieldKeySorter.java:61-77 | in an ascending TreeMap no two entries have the same rank |
| FieldKeySorter.TreeSlotsFacts | catroid/src/main/java/org/catrobat/catroid/io/CatroidFieldKeySorter.java:61-77 | the TreeMap's entries, read out as an ordered map, have no null key and are strictly ascending under the comparator. Each entry holds the first input key of its rank and the last value put under that rank, and every input key's rank has an entry |
| FieldKeySorter.TreeOrder | catroid/src/main/java/org/catrobat/catroid/io/CatroidFieldKeySorter.java:61-77 | the map returned for any other class: no null key, strictly ascending by depth and then name or alias, one entry for each rank of the input (no rank twice, none missing), each with the first key and the last value of its rank |
| FieldKeySorter.Get | catroid/src/main/java/org/catrobat/catroid/io/CatroidFieldKeySorter.java:128 | `map.get` returns a value only for a key of the input, the value stored with it; a present key always gives a value, and a null key gives null |
| FieldKeySorter.GetEntry | catroid/src/main/java/org/catrobat/catroid/io/CatroidFieldKeySorter.java:128 | in a map, looking up an entry's key gives that entry's value |
| FieldKeySorter.EmitIsDedup | catroid/src/main/java/org/catrobat/catroid/io/CatroidFieldKeySorter.java:127-129 | putting the slot array into the ordered map one element at a time leaves each distinct element once, at its first position, with its looked-up value. Several empty slots therefore give one null key |
| FieldKeySorter.PutInOrder | catroid/src/main/java/org/catrobat/catroid/io/CatroidFieldKeySorter.java:127-129 | the loop over the slot array builds exactly that map |
| FieldKeySorter.ListedMembers | catroid/src/main/java/org/catrobat/catroid/io/CatroidFieldKeySorter.java:102-126 | the entries the Project loop keeps are input entries with a listed name, and every input entry with a listed name is kept |
| FieldKeySorter.ListedDistinct | catroid/src/main/java/org/catrobat/catroid/io/CatroidFieldKeySorter.java:102-126 | the kept entries of a map have distinct keys |
| FieldKeySorter.FillListedSlots | catroid/src/main/java/org/catrobat/catroid/io/CatroidFieldKeySorter.java:99-126 | the Project fill loop writes the keys with a listed name, in iteration order, from position 0 on, and leaves every later position null |
| FieldKeySorter.ProjectSlotsOrder | catroid/src/main/java/org/catrobat/catroid/io/CatroidFieldKeySorter.java:97-131 | the Project slot array holds the listed keys from position 0, then nulls. Putting it into the ordered map gives the listed entries with their values, then one null key exactly when some field was not listed |
| FieldKeySorter.SortProjectFields | catroid/src/main/java/org/catrobat/catroid/io/CatroidFieldKeySorter.java:97-131 | `sortProjectFields` returns the listed entries in iteration order, followed by a single null key when some slot stayed empty |
| FieldKeySorter.SlotOf | catroid/src/main/java/org/catrobat/catroid/io/CatroidFieldKeySorter.java:137-162 | a name's slot is the position of its first occurrence in the if-chain; a name the chain does not list has no slot |
| FieldKeySorter.SlotOfFirst | catroid/src/main/java/org/catrobat/catroid/io/CatroidFieldKeySorter.java:139-160 | a name listed at index i, and not before it, takes slot i; the worked example uses it to find slot 10 of `$change` in a Scene |
| FieldKeySorter.FirstOverflow | catroid/src/main/java/org/catrobat/catroid/io/CatroidFieldKeySorter.java:135-162 | the first key, in iteration order, whose slot is not below the array length; every earlier key fits |
| FieldKeySorter.SlotArrayContents | catroid/src/main/java/org/catrobat/catroid/io/CatroidFieldKeySorter.java:137-162 | a filled slot holds an input key whose name has that slot; an empty slot is the slot of no input key |
| FieldKeySorter.SlotArrayPlacement | catroid/src/main/java/org/catrobat/catroid/io/CatroidFieldKeySorter.java:137-162 | a listed key lands in its slot unless a later key with the same slot overwrites it |
| FieldKeySorter.DedupKeepsSlotOrder | catroid/src/main/java/org/catrobat/catroid/io/CatroidFieldKeySorter.java:163-165 | putting the slot array into the ordered map keeps the non-null keys in slot order |
| FieldKeySorter.SlotOrderFacts | catroid/src/main/java/org/catrobat/catroid/io/CatroidFieldKeySorter.java:133-167 | a Scene or Sprite order that succeeds has its non-null keys in strictly increasing slot order, with no key twice. It has a null key exactly when a slot stayed empty |
| FieldKeySorter.FirstEmpty | catroid/src/main/java/org/catrobat/catroid/io/CatroidFieldKeySorter.java:163-165 | the first slot of the array left empty (the array length when none): every earlier slot is filled |
| FieldKeySorter.DedupNullPlace | catroid/src/main/java/org/catrobat/catroid/io/CatroidFieldKeySorter.java:163-165 | when the first empty slot is e and the filled slots are in slot order, the ordered map built from the array has its null key after exactly the keys of slots below e, and before every key of a slot above e |
| FieldKeySorter.SlotOrderNullPlace | catroid/src/main/java/org/catrobat/catroid/io/CatroidFieldKeySorter.java:133-167 | in a Scene or Sprite order that succeeds, the null key, if any, comes right after the keys whose slot is below the first empty slot, and before all other keys |
| FieldKeySorter.SlotOrderNullFirst | catroid/src/main/java/org/catrobat/catroid/io/CatroidFieldKeySorter.java:133-167 | when no input key has the first listed name (a Scene without sceneName), slot 0 stays empty and a successful order starts with the null key, mapped to null |
| FieldKeySorter.SlotOrderEntries | catroid/src/main/java/org/catrobat/catroid/io/CatroidFieldKeySorter.java:133-167 | every non-null key of a Scene or Sprite order that succeeds is an input key with a listed name, written with the value it has in the input |
| FieldKeySorter.SlotOrderPlacement | catroid/src/main/java/org/catrobat/catroid/io/CatroidFieldKeySorter.java:137-165 | in a Scene or Sprite order that succeeds, every listed input key that no later key overwrites appears with its value |
| FieldKeySorter.SortBySlots | catroid/src/main/java/org/catrobat/catroid/io/CatroidFieldKeySorter.java:133-167 | the fill loop followed by the put loop. It fails with `IndexOutOfBounds(slot, size)` at the first key whose slot is past the end, and otherwise returns the slot order |
| FieldKeySorter.SortSceneFields | catroid/src/main/java/org/catrobat/catroid/io/CatroidFieldKeySorter.java:133-167 | `sortSceneFields` is the slot order for the eleven Scene fields, sceneName at slot 0 to $change at slot 10 |
| FieldKeySorter.SortSpriteFields | catroid/src/main/java/org/catrobat/catroid/io/CatroidFieldKeySorter.java:169-221 | `sortSpriteFields` is the slot order for the twenty Sprite fields, TAG at slot 0 to $change at slot 19 |
| FieldKeySorter.Sort | catroid/src/main/java/org/catrobat/catroid/io/CatroidFieldKeySorter.java:48-78 | `sort` dispatches on the class. Project, Scene and Sprite get their hand-written orders; every other class gets the TreeMap order and always succeeds |
| FieldKeySorterExamples.ProjectOrderExample | catroid/src/main/java/org/catrobat/catroid/io/CatroidFieldKeySorter.java:97-131 | an unlisted Project field is dropped and leaves one null key after the listed one |
| FieldKeySorterExamples.SceneOverflowExample | catroid/src/main/java/org/catrobat/catroid/io/CatroidFieldKeySorter.java:135-160 | a one-field Scene map holding `$change` fails at slot 10 of an array of length 1 |
| FieldKeySorterExamples.TreeOrderExample | catroid/src/main/java/org/catrobat/catroid/io/CatroidFieldKeySorter.java:61-77 | the TreeMap after `putAll` holds the shallower fields first, by alias or name. A field aliased `w` merges with a field named `w`, keeping the first key and the last value |
| Firmata.Combine | catroidTest/src/org/catrobat/catroid/test/devices/phiro/PhiroImplTest.java:233-234 | two 7-bit data bytes carry a 14-bit value |
| Firmata.SplitRoundTrip | catroidTest/src/org/catrobat/catroid/test/devices/phiro/PhiroImplTest.java:233-234 | the lsb and msb of a 14-bit value combine back to it |
| Firmata.CombineRoundTrip | catroidTest/src/org/catrobat/catroid/test/devices/phiro/PhiroImplTest.java:233-234 | combining two data bytes and splitting again gives them back |
| Firmata.WithChannel | catroidTest/src/org/catrobat/catroid/test/devices/phiro/PhiroImplTest.java:231-232 | the command byte OR-ed with the channel is a byte whose high nibble is the command's and whose low nibble is the channel |
| Firmata.EncodeAllAppend | catroidTest/src/org/catrobat/catroid/test/devices/phiro/PhiroImplTest.java:222-227 | the frames of two runs of commands are the frames of the first run followed by those of the second |
| Firmata.EncodeAllTriples | catroidTest/src/org/catrobat/catroid/test/devices/phiro/PhiroImplTest.java:204-209 | when every command's frame is three long, the frame of the k-th command sits at offset 3k |
| Firmata.EncodeAllPairs | catroidTest/src/org/catrobat/catroid/test/devices/phiro/PhiroImplTest.java:214-220 | when every command's frame is two long, the frame of the k-th command sits at offset 2k |
| Firmata.DecodeOne | catroidTest/src/org/catrobat/catroid/test/devices/phiro/PhiroImplTest.java:222-227 | whatever the decoder reads off the front of a byte stream is a whole frame: the prefix it consumes is that command's encoding |
| Firmata.DecodeEncode | catroidTest/src/org/catrobat/catroid/test/devices/phiro/PhiroImplTest.java:229-235 | decoding the frame of a command whose analog value fits in 14 bits, followed by anything, gives the command and the frame length |
| Firmata.DecodeEncodeAll | catroidTest/src/org/catrobat/catroid/test/devices/phiro/PhiroImplTest.java:204-220 | decoding the frames of such commands, one after the other, gives the commands back |
| PhiroDevice.PercentToSpeed | catroidTest/src/org/catrobat/catroid/test/devices/phiro/PhiroImplTest.java:244-253 | 0 at or below 0 percent and 255 at or above 100 percent. Strictly between, the speed is the integer part of percent × 2.55, so always within 0..255 |
| PhiroDevice.PercentToSpeedMonotonic | catroidTest/src/org/catrobat/catroid/test/devices/phiro/PhiroImplTest.java:244-253 | a higher percentage never gives a lower speed |
| PhiroDevice.PercentToSpeedValues | catroidTest/src/org/catrobat/catroid/test/devices/phiro/PhiroImplTest.java:87-94 | 42 percent is speed 107; −5 and 0 give 0; 100 and 101 give 255 |
| PhiroDevice.PinModeFramesAt | catroidTest/src/org/catrobat/catroid/test/devices/phiro/PhiroImplTest.java:205-209 | the pin-mode run is one triple `[0xF4, pin, 3]` per PWM pin, in pin order |
| PhiroDevice.SensorReportFramesAt | catroidTest/src/org/catrobat/catroid/test/devices/phiro/PhiroImplTest.java:214-220 | the report run is one pair `[0xC0 + pin, 1]` per sensor pin, in pin order |
| PhiroDevice.InitialisationLayout | catroidTest/src/org/catrobat/catroid/test/devices/phiro/PhiroImplTest.java:204-220 | initialisation writes 45 bytes: `[0xF4, pin, 3]` for pins 3 to 13, then `[0xC0 + pin, 1]` for pins 0 to 5 |
| PhiroDevice.StopsAccounted | catroidTest/src/org/catrobat/catroid/test/devices/phiro/PhiroImplTest.java:192-201 | when time passes, every scheduled stop either fires once or stays scheduled with time left, so no tone gets two stop frames |
| PhiroDevice.ElapseAdditive | catroidTest/src/org/catrobat/catroid/test/devices/phiro/PhiroImplTest.java:192-196 | letting a then b milliseconds pass leaves the same stops scheduled, with the same time left, as letting a + b pass at once |
| PhiroDevice.ElapseAdditiveDue | catroidTest/src/org/catrobat/catroid/test/devices/phiro/PhiroImplTest.java:192-196 | letting a then b milliseconds pass fires as many stops as letting a + b pass at once |
| PhiroDevice.ToneStopFrames | catroidTest/src/org/catrobat/catroid/test/devices/phiro/PhiroImplTest.java:198-201 | each stop that fires writes `[0xE3, 0, 0]` |
| PhiroDevice.OneSecondTone | catroidTest/src/org/catrobat/catroid/test/devices/phiro/PhiroImplTest.java:182-201 | a one-second stop is not due after 900 milliseconds and has 100 left; it falls due after 100 more, and then nothing is scheduled |
| PhiroDevice.Phiro.constructor | catroidTest/src/org/catrobat/catroid/test/devices/phiro/PhiroImplTest.java:72-78 | a controller on a fresh connection: nothing sent and nothing scheduled |
| PhiroDevice.Phiro.Send | catroidTest/src/org/catrobat/catroid/test/devices/phiro/PhiroImplTest.java:222-227 | writing a command appends exactly its frame to the log |
| PhiroDevice.Phiro.Initialise | catroidTest/src/org/catrobat/catroid/test/devices/phiro/PhiroImplTest.java:204-220 | `initialise` appends exactly the initialisation frames |
| PhiroDevice.Phiro.SetPwmPinModes | catroidTest/src/org/catrobat/catroid/test/devices/phiro/PhiroImplTest.java:205-209 | the loop over pins 3 to 13 appends their pin-mode frames in order |
| PhiroDevice.Phiro.EnableSensorReports | catroidTest/src/org/catrobat/catroid/test/devices/phiro/PhiroImplTest.java:214-220 | the loop over pins 0 to 5 appends their enabling report frames in order |
| PhiroDevice.Phiro.MoveMotor | catroidTest/src/org/catrobat/catroid/test/devices/phiro/PhiroImplTest.java:229-235 | a move appends one ANALOG_MESSAGE on the motor's pin carrying the mapped speed |
| PhiroDevice.Phiro.MoveLeftMotorForward | catroidTest/src/org/catrobat/catroid/test/devices/phiro/PhiroImplTest.java:89-95 | one analog message on pin 11 with the mapped speed |
| PhiroDevice.Phiro.MoveLeftMotorBackward | catroidTest/src/org/catrobat/catroid/test/devices/phiro/PhiroImplTest.java:97-103 | one analog message on pin 10 with the mapped speed |
| PhiroDevice.Phiro.MoveRightMotorForward | catroidTest/src/org/catrobat/catroid/test/devices/phiro/PhiroImplTest.java:105-111 | one analog message on pin 12 with the mapped speed |
| PhiroDevice.Phiro.MoveRightMotorBackward | catroidTest/src/org/catrobat/catroid/test/devices/phiro/PhiroImplTest.java:113-119 | one analog message on pin 13 with the mapped speed |
| PhiroDevice.Phiro.StopLeftMotor | catroidTest/src/org/catrobat/catroid/test/devices/phiro/PhiroImplTest.java:121-128 | speed 0 on pin 11, then on pin 10 |
| PhiroDevice.Phiro.StopRightMotor | catroidTest/src/org/catrobat/catroid/test/devices/phiro/PhiroImplTest.java:130-137 | speed 0 on pin 12, then on pin 13 |
| PhiroDevice.Phiro.StopAllMovements | catroidTest/src/org/catrobat/catroid/test/devices/phiro/PhiroImplTest.java:139-148 | speed 0 on pins 11, 10, 12, 13, in that order |
| PhiroDevice.Phiro.SetRGBLightColor | catroidTest/src/org/catrobat/catroid/test/devices/phiro/PhiroImplTest.java:237-242 | three analog messages, red, green and blue, each carrying its value unchanged |
| PhiroDevice.Phiro.SetLeftRGBLightColor | catroidTest/src/org/catrobat/catroid/test/devices/phiro/PhiroImplTest.java:150-162 | the colour on pins 4, 5, 6 |
| PhiroDevice.Phiro.SetRightRGBLightColor | catroidTest/src/org/catrobat/catroid/test/devices/phiro/PhiroImplTest.java:164-176 | the colour on pins 7, 8, 9 |
| PhiroDevice.Phiro.PlayTone | catroidTest/src/org/catrobat/catroid/test/devices/phiro/PhiroImplTest.java:185-190 | the frequency goes to pin 3 at once, and a stop is scheduled for the duration in milliseconds |
| PhiroDevice.Phiro.Elapse | catroidTest/src/org/catrobat/catroid/test/devices/phiro/PhiroImplTest.java:192-201 | passing time appends one stop frame per scheduled stop that falls due; the rest stay scheduled with the time they still have |
| PhiroDevice.Phiro.Disconnect | catroidTest/src/org/catrobat/catroid/test/devices/phiro/PhiroImplTest.java:80-85 | disconnecting closes the connection and cancels every scheduled stop; in this model it writes nothing |
| PhiroDevice.Initialised | catroidTest/src/org/catrobat/catroid/test/devices/phiro/PhiroImplTest.java:72-78 | a new controller after `initialise` has sent exactly the initialisation frames |
| PhiroDevice.MoveLeftMotorForwardScenario | catroidTest/src/org/catrobat/catroid/test/devices/phiro/PhiroImplTest.java:89-95 | the log is the initialisation frames followed by `[0xEB, 107, 0]` |
| PhiroDevice.MoveLeftMotorBackwardScenario | catroidTest/src/org/catrobat/catroid/test/devices/phiro/PhiroImplTest.java:97-103 | the initialisation frames, then `[0xEA, 107, 0]` |
| PhiroDevice.MoveRightMotorForwardScenario | catroidTest/src/org/catrobat/catroid/test/devices/phiro/PhiroImplTest.java:105-111 | the initialisation frames, then `[0xEC, 107, 0]` |
| PhiroDevice.MoveRightMotorBackwardScenario | catroidTest/src/org/catrobat/catroid/test/devices/phiro/PhiroImplTest.java:113-119 | the initialisation frames, then `[0xED, 107, 0]` |
| PhiroDevice.StopScenario | catroidTest/src/org/catrobat/catroid/test/devices/phiro/PhiroImplTest.java:121-148 | the exact stop frames of the three stop tests |
| PhiroDevice.SetRGBLightColorScenario | catroidTest/src/org/catrobat/catroid/test/devices/phiro/PhiroImplTest.java:150-176 | 242 is sent as `[114, 1]`: `[0xE4, 114, 1, 0xE5, 0, 0, 0xE6, 3, 0]` on the left, `[0xE7, 114, 1, 0xE8, 1, 0, 0xE9, 3, 0]` on the right |
| PhiroDevice.PlayToneScenario | catroidTest/src/org/catrobat/catroid/test/devices/phiro/PhiroImplTest.java:178-202 | tone 294 for one second: `[0xE3, 38, 2]` at once, nothing while the second runs, then `[0xE3, 0, 0]` exactly once |
| PhiroDevice.DisconnectDuringToneScenario | catroidTest/src/org/catrobat/catroid/test/devices/phiro/PhiroImplTest.java:80-85 | in this model, a disconnect before a one-second tone is over leaves the log at the tone frame: no stop frame is sent |

## Left out

- `DroneSetConfig.java` is not part of this model. It is a brick's user-interface code, not part of either component.
- `PhiroImpl`, `BytesHelper` and `ConnectionDataLogger` are not part of this model.
  - The controller is reconstructed from the frames `PhiroImplTest` expects.
  - `lsb` is taken as `value & 0x7F`, `msb` as `(value >> 7) & 0x7F`, and `encodeChannel` as the channel itself in the low nibble.
  - The log records each sent byte as one integer, in the order the test drains them. The test double's per-message `ByteBuffer` framing is not modelled.
- PhiroDevice.PercentToSpeed: computes `percent * 255 / 100` in integers rather than truncating the double `percent * 2.55`. Floating point is not modelled.
- PhiroDevice.Phiro.MoveMotor: it, and every other operation that sends, requires an open connection. What happens on a closed connection is left unspecified, and so is not modelled.
- Real time, the timer thread and the race between a firing stop and `disconnect` are not modelled. Time is an explicit `Elapse` event, and a stop that is due when `disconnect` runs has already fired.
  - Each `playTone` schedules its own stop. Whether a controller cancels an earlier stop on a new `playTone` cannot be seen from the test.
- PhiroDevice.Phiro.Disconnect: the test's tearDown (PhiroImplTest.java:80-85) disconnects without draining the log, so it does not fix what a disconnect writes. The model writes nothing on disconnect; a controller that first sends a run of report-disabling frames (`[0xC0 + pin, 0]`) is not modelled.
- Reading sensor values from the device, and the receive side of the connection, are not modelled.
- The reflective field lookup (`getDeclaredClass().getDeclaredField`, the `XStreamAlias` annotation, the logged exception) becomes a per-key `FieldLookup` value. That value says whether the field has an alias, has none, or cannot be found.
- Field keys are compared as whole values (name, depth, lookup). XStream's declaring class and definition order are not represented.
- The input map is given as its iteration sequence. How a `HashMap` chooses that order is not modelled, and neither is a null key in the input.
- FieldKeySorter.Sort: requires the input keys to be distinct, which every Java `Map` guarantees.
- Java strings are sequences of UTF-16 code units; here they are sequences of Dafny characters. `compareTo` is modelled on those characters.
- The `ArrayIndexOutOfBoundsException` of the Scene and Sprite fill loops is returned as an `IndexOutOfBounds` error value, not thrown.
