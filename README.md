# lit, modelled in Dafny

lit is a small dynamically typed scripting language written in C. Its
interpreter compiles source text to bytecode and runs it on a stack VM.
The compiler has a scanner, an in-place preprocessor, a Pratt parser, an
(inactive) AST optimizer and a bytecode emitter. The VM runs the bytecode
on fibers, and its heap is managed by a mark-and-sweep collector. A
runtime library provides strings, arrays, maps and fibers, and compiled
modules can be saved to and loaded from a byte format. The repository also
has gen.rb, a Ruby script that renames C symbols across the sources
according to a YAML table.

This project models the core of that interpreter and of gen.rb, one Dafny
module per source file, and proves properties of the model:

| module | file | models |
|---|---|---|
| Lit | lit.dfy | lit.h: NaN boxing of values in one 64-bit word, capacity growth, truthiness, character classes, and the heap records (functions, closures, upvalues, frames, fibers, modules) with lit_push/lit_pop |
| Values | value.dfy | value.c: the out-of-line mask tests, bit reinterpretation of numbers, lit_value_type, lit_compare_values |
| Bytes | bytes.dfy | the uint8_t round trip the emitter and serializer rely on |
| Utf | utf.dfy | utf.c: UTF-8 byte counts, encoding into a buffer, decoding, counting and stepping over code points, re-encoding a range |
| Sds | sds.dfy | sds.h: append, room-making, range, trim, compare, split, integer formatting, character mapping, join, argument splitting |
| LibString | libstring.dfy | libstring.c: FNV-1a hashing, itoa and int_to_string, interning, the `$`/`@` formatter, startsWith, endsWith, contains, replace and the string iterator |
| Util | util.dfy | util.c: power-of-two rounding, module-name patching of paths, string copying |
| Table | table.dfy | table.c: the open-addressing hash table with linear probing, tombstones and growth |
| LibMap | libmap.dfy | libmap.c and the map helpers of object.c: iteration by entry index, subscript, clear, add-all and clone |
| LibArray | libarray.dfy | libarray.c: the growable value list and the array methods indexOf, removeAt, insert, splice, slice, subscript, iterator, pop, addAll and clone |
| Chunk | chunk.dfy | chunk.c: the bytecode buffer with its run-length line table and deduplicated constants |
| Scan | scan.dfy | ccscan.c: the lexer, as value-level functions and as the Scanner object proved against them |
| Prepr | prepr.dfy | ccprepr.c: the in-place `#define`/`#undef`/`#ifdef`/`#ifndef`/`#else`/`#endif` preprocessor |
| Parser, ParserProps | parser.dfy | ccparser.c: precedence climbing, the expression rules, compound assignment, calls and parameter lists, and properties of the parses |
| LitParsers | litparser.dfy | the LitParser object of ccparser.c, updated in place, proved against the Parser functions |
| Opt | opt.dfy | ccopt.c: optimization flags and levels, the optimizer's variable scopes |
| Emit | emit.dfy | ccemit.c: byte and opcode emission with line and stack-effect bookkeeping, jumps, locals and upvalues, scope exit |
| Vm | vm.dfy | vm.c: operand reading, the fiber's value stack, jump and short-circuit opcodes, open upvalues, call set-up with arity adjustment, `is` |
| Object | object.dfy | object.c (and the same functions in libfiber.c): callable types, fiber and closure creation, fiber stack growth |
| LibFiber | libfiber.dfy | libfiber.c: the Fiber constructor, yield, yeet and abort |
| Core | core.dfy | libcore.c: the two swap-only quicksorts, util_is_fiber_done, util_run_fiber |
| Gc | gc.dfy | gcmem.c and mem.c: memory accounting, gray-stack marking, tracing and sweeping on an abstract heap |
| Fs | fs.dfy | libfs.c (and fs.c): writing and loading strings, constants, chunks, functions and modules as bytes |
| Api | api.dfy | the argument-count and number checks of the native methods (LIT_ENSURE_ARGS, lit_check_number) |
| Gen | gen.dfy | gen.rb: symbol checks, table validation, whole-word substitution, backup paths, prototype collection and verb choice |
| Wrappers | wrappers.dfy | Option and Result for the error paths |

Values are 64-bit words (`bv64`); a double is only ever its bit pattern.
Code that changes state in place is modelled as classes with `modifies`
clauses whose methods are proved against value-level specification
functions. Lemmas then state the properties of those functions. Where the
source has a defect, the model keeps a member for the code as written,
with a lemma that exhibits the defect, next to the corrected member that
the rest of the model uses (see "## Findings").

## Model

| member | source | states |
|---|---|---|
| Lit.AsObject | lit.h:239 | unboxing clears the sign and quiet-NaN bits, so the result never overlaps the tag masks |
| Lit.ObjectValue | lit.h:145-146 | a boxed pointer is an object, not a number and not null, and AS_OBJECT recovers every untagged pointer |
| Lit.BoolValue | lit.h:138-139 | BOOL_VALUE gives a boolean that is neither number, object nor null, and AS_BOOL reads the same truth value back |
| Lit.SpecialConstants | lit.h:99-104 | true, false and null are pairwise distinct; none of them is a number or an object; true and false pass IS_BOOL and null does not |
| Lit.BoolTestOnObjects | lit.h:166-167 | IS_BOOL holds for a boxed object exactly when bit 1 of the pointer is set, because the test only masks the FALSE_VALUE bits |
| Lit.IsFalsey | lit.h:1539-1542 | a value is falsey exactly when it is false, null, or the number +0.0 or -0.0 |
| Lit.GrowCapacity | lit.h:148-149 | the grown capacity is larger than the old one and at least 8, and it doubles once the capacity is 8 or more |
| Lit.IsDigit | lit.h:1895-1898 | a digit is an ASCII character and never a letter or the underscore, so the scanner's number and identifier branches cannot both apply |
| Lit.IsAlpha | lit.h:1900-1903 | a letter or underscore is an ASCII character other than the blank and the NUL |
| Lit.DescendingOrdered | vm.c:842-869 | the open-upvalue list ordered slot-above-slot between neighbours is ordered over every pair |
| Lit.DistinctUpvalues | vm.c:842-869 | entries of an ordered open-upvalue list are distinct objects |
| Lit.Function.constructor | lit.h:860-870 | the function record stores its argument count, upvalue count, slot count and vararg flag |
| Lit.Upvalue.constructor | object.c:119-127 | a new upvalue points at its stack slot and its closed value is null |
| Lit.Closure.constructor | lit.h:880-886 | the closure record stores its function and its upvalue array |
| Lit.Module.constructor | object.c:255-268 | a new module has no main fiber yet |
| Lit.Fiber.constructor | lit.h:946-962 | the fiber record starts with an empty stack (top at base), no frames, no open upvalues, no parent, a null error and clear abort and catcher flags |
| Lit.Fiber.Push | lit.h:1695-1700 | push writes the value at stack_top and advances it, so the live stack gains exactly that value at its end |
| Lit.Fiber.Pop | lit.h:1702-1708 | lit_pop as written returns the slot AT stack_top, one above the last live value, and then drops the last live value |
| Lit.Fiber.PopLast | lit.h:1702-1708 | corrected pop: the result is the last live value and the live stack loses exactly that value |
| Lit.PushThenPopReturnsSlotAbove | lit.h:1695-1708 | pushing true and then calling lit_pop as written returns 0 (the slot above), not the pushed value |
| Lit.PushThenPopLastRoundTrip | lit.h:1695-1708 | with the corrected pop, push then pop returns the pushed value and leaves the live stack unchanged |
| Object.CallableTypes | object.c:7-24 | a value is callable exactly when it is an object whose type is one of the seven function-like types; a non-object never is |
| Object.StackCapacity | mem.c:490-501 | the rounded capacity is a power of two, at least the request, and less than twice it (or 1) |
| Object.StackCapacityLeast | mem.c:490-501 | no smaller power of two covers the request: the rounding gives the least one |
| Object.FiberCapacity | object.c:192 | with no function the stack has one slot; otherwise a power of two strictly above the function's slot count |
| Object.CreateFiber | object.c:184-224 | a fresh fiber with an empty live stack of FiberCapacity slots, 128 call frames of which the first is in use for the function with slots at the stack base, no parent, no open upvalues, and the module's main fiber set when it had none |
| Object.CreateClosure | object.c:129-146 | a fresh closure for the function with one upvalue slot per upvalue of the function, each null |
| Object.ShiftKeepsOffsets | object.c:243-246 | moving the stack keeps every open upvalue at the same offset from the base, so the list stays ordered and inside the new stack |
| Object.MovedFramesNone | object.c:237-242 | when the buffer did not move, the frames are untouched |
| Object.ShiftNone | object.c:237-247 | when the buffer did not move, the open upvalues are untouched |
| Object.EnsureStack | object.c:226-253 | nothing changes when the capacity already holds the request; otherwise the stack becomes a fresh buffer of StackCapacity(needed) slots with the same live values, and stack_top, every frame's slots and every open upvalue are rebased by the same distance |
| Object.Grow | object.c:236-252 | the reallocating half: the new buffer has the requested capacity, starts with the old slots, keeps the live stack, and rebases pointers as Rebase states |
| Object.Rebase | object.c:237-251 | after the buffer moved, stack_top, every frame and every open upvalue move by the same delta and closed values are kept |
| Object.Relocate | object.c:239-251 | the moving loops: frames and open upvalues shifted by delta, stack_top shifted by delta |
| Object.Regrow | object.c:236-238 | the realloc: a fresh buffer of the new capacity holding the old slots at the front |
| Object.MoveFrames | object.c:239-243 | every one of the frame_capacity frames has its slots pointer moved by delta and nothing else about it changes |
| Object.MoveUpvalues | object.c:244-247 | every entry of the open-upvalue list is moved by delta; closed values are unchanged |
| Object.MoveUpvalue | object.c:246 | one round of the upvalue loop moves exactly the current entry |
| Values.ObjectValueActual | value.c:6-9 | the function form boxes exactly as the OBJECT_VALUE macro, and unboxing gives the pointer back |
| Values.AsObjectValue | value.c:11-14 | the function form unboxes exactly as the AS_OBJECT macro |
| Values.BoolToValue | value.c:16-20 | true and false map to TRUE_VALUE and FALSE_VALUE, which read as booleans, not numbers or objects |
| Values.IsBoolValue | value.c:22-25 | agrees with the IS_BOOL macro on every value |
| Values.IsObjectValue | value.c:27-30 | agrees with the IS_OBJECT macro on every value |
| Values.IsNumberValue | value.c:84-91 | agrees with the IS_NUMBER macro on every value |
| Values.ValueType | value.c:32-45 | a non-object or a null object pointer has type UNDEFINED; any other object has the type in its header |
| Values.NumberRoundTrip | value.c:49-82 | reinterpreting a double as a value and back (and the reverse) is the identity |
| Values.CompareValuesAsWritten | value.c:94-112 | as written: a normal return of the instance's `==` method counts as equal whenever the returned word is non-zero; otherwise the values are compared bit for bit |
| Values.CompareValuesAsWrittenIgnoresFalse | value.c:104 | an `==` method that returns false still makes two different values compare equal |
| Values.CompareValues | value.c:94-112 | corrected: the instance's `==` answer decides as the boolean it boxes; otherwise bitwise equality |
| Values.CompareValuesHonoursFalse | value.c:104 | with the correction, an `==` answering false makes the values unequal |
| Chunk.Repeat | chunk.c:104-121 | a run of `length` bytes stands for exactly that many copies of its line (none when the length is not positive) |
| Chunk.Pairs | chunk.c:59-71 | the first n (line, length) word pairs of the line table, in order |
| Chunk.ExpandLength | chunk.c:104-121 | the per-byte line list of a run table is as long as the run lengths add up to |
| Chunk.ExpandAppend | chunk.c:104-121 | expanding two run tables one after the other is expanding each and concatenating |
| Chunk.ExpandAt | chunk.c:104-121 | a byte offset that falls inside run j has run j's line |
| Chunk.PushRun | chunk.c:59-71 | after a push the current run carries the pushed line: a different line of a non-empty run opens a new run, otherwise the run grows by one (with 16-bit wrap) |
| Chunk.PushRunRecords | chunk.c:59-71 | as long as the line is not 0 and the current run has not reached 65535 bytes, push keeps the run table an exact record of every byte's line |
| Chunk.PushRunWraps | chunk.c:71 | a run of 65535 bytes on one line wraps to length 0 on the next push on that line, so the table then records no bytes at all |
| Chunk.PairsOpen | chunk.c:64-71 | writing the pair after the first n opens run (line, 1) after them |
| Chunk.PairsSet | chunk.c:70-71 | writing the n-th pair replaces the last of the first n pairs |
| Chunk.Resized | lit.h:151-152 | LIT_GROW_ARRAY gives a fresh buffer of the new size that starts with the old slots that fit |
| Chunk.Chunk.Current | chunk.c:45-60 | the pairs up to the current one as push sees them, never empty (the pair (0,0) stands in before the table exists) |
| Chunk.Chunk.SingleRun | chunk.c:59-71 | a table whose current pair is its first holds the line in its first word |
| Chunk.Chunk.constructor | chunk.c:4-16 | a new chunk has no code, no line table, no constants, and line information on |
| Chunk.Chunk.Destroy | chunk.c:18-25 | the buffers and constants are released and the chunk is back to its initial, empty state |
| Chunk.Chunk.Push | chunk.c:27-72 | the byte is appended, the code buffer grows to GROW_CAPACITY(capacity + 2) when full; with line information on, the line is appended to the history and the run table changes as PushRun says, and the table keeps recording the history when the line is real and does not wrap; with it off, the line table is untouched |
| Chunk.Chunk.PushByte | chunk.c:29-38 | the code half of push: the byte is appended and the capacity grows as GROW_CAPACITY(capacity + 2) when full |
| Chunk.Chunk.PushLine | chunk.c:45-71 | the line half of push: history gains the line, the run table changes as PushRun says, the table grows when the next pair does not fit |
| Chunk.Chunk.GrowLines | chunk.c:45-57 | the table grows to GROW_CAPACITY(line_capacity + 2) when the pair after the current one does not fit; a new table starts with the pair (0,0); the runs are unchanged |
| Chunk.Chunk.WriteLine | chunk.c:59-71 | writing the line into the current or the next pair changes the runs as PushRun says |
| Chunk.Chunk.OpenRun | chunk.c:62-71 | a line other than a non-empty current run's opens the pair (line, 1) after it |
| Chunk.Chunk.ExtendRun | chunk.c:70-71 | the current run's line (or the empty pair) takes the line and one more byte |
| Chunk.Chunk.ValidPushInBounds | chunk.c:45-71 | in the shape push keeps, the writes of the line half fall inside the table |
| Chunk.Chunk.GetLine | chunk.c:93-124 | the line of the byte at the offset is the line that was pushed with it; 0 when the chunk keeps no line information |
| Chunk.WalkRuns | chunk.c:100-123 | the run-walking loop returns the line of the byte at the offset in the expanded table |
| Chunk.Chunk.AddConst | chunk.c:74-91 | the constant is appended only when no equal value is in the list, and the result is the index of its first occurrence |
| Chunk.Chunk.EmitByte | chunk.c:145-148 | one push on line 1 |
| Chunk.Chunk.Emit2Bytes | chunk.c:150-154 | two pushes on line 1, bytes in order |
| Chunk.Chunk.EmitShort | chunk.c:156-159 | appends a high and a low byte that together give the 16-bit value back |
| Chunk.Chunk.ShrinkAsWritten | chunk.c:126-143 | as written: the code buffer shrinks to the bytes in use, and the line table is cut to line_count + 2 words, leaving no room for the pair push writes next |
| Chunk.Chunk.Shrink | chunk.c:126-143 | corrected: both buffers shrink to what is in use, the line table keeping the two spare words push needs, and every other part of the chunk is unchanged; lit_chunk_shrink has no caller in this source |
| Chunk.ShrinkThenPushOverflows | chunk.c:136-142 | after the as-written shrink of a one-run chunk, a push on a new line writes past the end of the line table |
| Chunk.PushFirstRun | chunk.c:59-71 | the first push, on line 1, opens the run of one byte on line 1 |
| Chunk.ShrinkThenPushFits | chunk.c:136-142 | after the corrected shrink the same push writes inside the table |
| Table.Str.constructor | lit.h:852-858 | the part of a string object the table reads: address, bytes, hash, and an unmarked GC flag |
| Table.Home | table.c:26 | a probe starts at hash % capacity, a slot inside the table |
| Table.SlotAt | table.c:46 | the x-th probe step from h is slot (h + x) % capacity |
| Table.Dist | table.c:46 | every slot is reached from h after some number of steps below the capacity |
| Table.SlotAtInjective | table.c:46 | distinct step counts below the capacity give distinct slots, so a probe visits every slot once per lap |
| Table.StopDist | table.c:28-47 | the step at which a probe stops (an empty slot or the key) with every earlier step passing; none when no step in the lap stops |
| Table.FirstTomb | table.c:37-40 | the first tombstone the probe passes before a given step, with no tombstone before it |
| Table.FindSlot | table.c:21-48 | find_entry's answer is a slot inside the table that is either keyless (empty or a tombstone) or holds the key |
| Table.FindContent | table.c:150-175 | find_string's probe result, when it finds a key, is a slot whose key has the given bytes and hash |
| Table.UsedCount | table.c:80-99 | the count of used slots (live keys and tombstones) never exceeds the number of slots |
| Table.StopsByEmpty | table.c:31-36 | a probe stops no later than the first empty slot on its path |
| Table.FindSlotLive | table.c:42-45 | in a table keeping the probing invariant, find_entry finds a present key at its own slot |
| Table.FindSlotAbsent | table.c:31-36 | for an absent key find_entry returns a keyless slot with only non-empty slots before it on the probe path |
| Table.FindContentComplete | table.c:150-175 | find_string finds a key with the given bytes and hash whenever the table holds one |
| Table.FindContentAbsent | table.c:161-164 | with no matching key, find_string stops at an empty slot and returns nothing |
| Table.FindSlotFullDiverges | table.c:28-47 | a table with no empty slot and without the key makes find_entry loop forever |
| Table.UsedCountUpdate | table.c:92-95 | overwriting one slot changes the used count by the change in that slot's emptiness only |
| Table.UsedCountHasEmpty | table.c:85 | fewer used slots than slots leaves an empty slot |
| Table.UsedCountFull | table.c:85 | as many used slots as slots leaves none empty |
| Table.MapOfKeys | table.c:101-115 | a key is in the table's contents exactly when some live slot holds it |
| Table.LiveKeysCounted | table.c:50-78 | in a table with no tombstones and distinct keys, the number of non-empty slots is the number of keys in the contents |
| Table.MapOfValue | table.c:101-115 | a uniquely stored key maps to the value in its slot |
| Table.MapOfStore | table.c:96-97 | storing a key in its only slot maps the key to the new value and leaves the rest |
| Table.MapOfRemove | table.c:144-146 | a tombstone in the only slot of a key removes exactly that key |
| Table.MapOfEmpty | table.c:5-10 | a table of empty slots holds nothing |
| Table.StorePreserves | table.c:96-97 | writing a key into the slot find_entry returned keeps uniqueness and the probing invariant |
| Table.RemovePreserves | table.c:144-146 | turning a live slot into a tombstone keeps the invariant |
| Table.EmptyInv | table.c:56-61 | freshly allocated entries (all empty) satisfy the invariant and hold nothing |
| Table.SetSlot | table.c:90-97 | the slot find_entry returns holds the key exactly when it is present, no other slot holds it, and a keyless slot is reached only across used slots |
| Table.LookupSlot | table.c:101-148 | the slot find_entry returns holds the key and its value exactly when the key is present |
| Table.NothingUsed | table.c:137-140 | no used slots means every slot is empty and the table holds nothing |
| Table.NotYetCopied | table.c:63-74 | a live key of the old entries is not among those already copied |
| Table.RehashStep | table.c:63-74 | copying one live entry into the new tombstone-free entries lands on an empty slot and adds exactly that pair |
| Table.StoreStep | table.c:90-97 | set's slot is keyless exactly when the key is new; after the write the contents are the old contents with key mapped to the value and the count grows only when the slot was empty |
| Table.Without | table.c:144-146 | delete leaves the slot array the same length |
| Table.RemoveStep | table.c:141-148 | delete's slot holds the key exactly when it is present; the tombstone removes just that key and keeps the count; an absent key leaves everything as it was |
| Table.ProbeStep | table.c:30-46 | a probe that does not stop at step d goes on to step d + 1, remembering the first tombstone it passes |
| Table.NextSlot | table.c:46 | the index update (index + 1) % capacity walks the probe sequence |
| Table.ProbeEnd | table.c:31-45 | where the probe stops, find_entry returns the first tombstone passed or else the slot itself |
| Table.ContentEnd | table.c:157-172 | where find_string's probe stops, it returns that slot's key or nothing |
| Table.ContentResult | table.c:150-175 | find_string finds a present key with the bytes and hash, or reports none and none exists |
| Table.SweepStep | table.c:191-203 | one deletion of remove_white sweeps one more slot |
| Table.SweepKeys | table.c:191-203 | after the sweep a key is present exactly when it was present and marked |
| Table.SweepValue | table.c:191-203 | a marked key keeps its value through the sweep |
| Table.SweepContents | table.c:191-203 | the swept contents are the marked keys with their old values |
| Table.Table.constructor | table.c:5-10 | a new table holds nothing, has capacity -1 and count 0 |
| Table.Table.Free | table.c:12-19 | after freeing, the table holds nothing and is back to capacity -1, count 0 |
| Table.Table.FindEntry | table.c:21-48 | the probe loop returns the slot FindSlot describes |
| Table.Table.AdjustCapacity | table.c:50-78 | the table moves to fresh entries of the new capacity with the same contents; no slot holds a tombstone, and the count is the number of slots holding a key, the live keys |
| Table.Table.CopyEntry | table.c:65-73 | one copy places one more live entry in the new entries, keeping the invariant |
| Table.Table.CopyLive | table.c:62-74 | the copying loop puts every live entry of the old entries into the new ones and counts them |
| Table.Table.Set | table.c:80-99 | afterwards the key maps to the value and nothing else changed; the result is true exactly when the key was absent; the table grows to GROW_CAPACITY(capacity + 1) - 1 first when count + 1 exceeds 0.75 of the slots |
| Table.Table.Store | table.c:90-98 | on a table with room, set writes the key into find_entry's slot: contents updated, result true exactly when the key was new, count unchanged for a present key |
| Table.Table.Get | table.c:101-115 | the key's value when present, nothing otherwise |
| Table.Table.GetSlot | table.c:117-131 | the slot index holding the key and its value when present, nothing otherwise |
| Table.Table.Delete | table.c:133-148 | the key is removed, the count is unchanged (a tombstone stays), and the result is true exactly when the key was present |
| Table.Table.Remove | table.c:141-148 | the deletion after the empty-table test: key removed, result true exactly when it was present |
| Table.Table.FindString | table.c:150-175 | the interned string with these bytes and hash when the table holds one; null only when none exists |
| Table.Table.FindStringSlot | table.c:157-174 | the probe loop returns what FindContent describes |
| Table.Table.AddAll | table.c:177-189 | the result is the union of both tables with the source's values winning; adding a table to itself leaves it as it was |
| Table.Table.AddOwn | table.c:177-189 | the aliased case of add_all: the loop re-reads the entries each round and leaves the contents unchanged |
| Table.Table.OwnRound | table.c:183-187 | one round of the aliased loop: contents unchanged, and the table either keeps its shape or has grown once |
| Table.Table.OwnEntry | table.c:183-187 | a live slot holds its key's value |
| Table.Table.AddEntries | table.c:179-188 | after the loop, the contents are the old contents overridden by every live pair of the source |
| Table.Table.RemoveWhite | table.c:191-203 | afterwards exactly the marked keys remain, each with its old value |
| Utf.DecodeNumBytes | utf.c:5-24 | a lead byte announces at most 4 bytes, and 0 exactly for a continuation byte |
| Utf.EncodeNumBytes | utf.c:100-119 | 1, 2, 3 or 4 bytes exactly for the values up to 0x7f (negative words included), 0x7ff, 0xffff and 0x10ffff; 0 exactly above U+10FFFF |
| Utf.Encoding | utf.c:121-157 | the bytes written for an accepted value are as many as lit_encode_num_bytes says |
| Utf.Encode | utf.c:121-157 | writes Encoding(v) at the position, changes no other byte, and returns lit_encode_num_bytes(v), at least 1 |
| Utf.Decode | utf.c:159-201 | the decoding loop computes DecodeValue, the value-level reading of the source |
| Utf.FoldTrail | utf.c:190-199 | the loop over the trailing bytes folds six bits per byte, or gives -1 |
| Utf.TrailFails | utf.c:194-197 | a trailing byte anywhere that is not 10xxxxxx makes the result -1 |
| Utf.DecodeFailures | utf.c:163-197 | decoding gives -1 on a continuation or 0xF8-and-above lead byte, on too few bytes for the lead, and on a bad trailing byte at any position |
| Utf.DecodeEncoding | utf.c:121-201 | decoding the encoding of any code point up to U+10FFFF gives it back, whatever bytes follow |
| Utf.RoundTrip2 | utf.c:128-134 | the two-byte encoding decodes back to the value |
| Utf.Decode2 | utf.c:167-199 | a two-byte sequence decodes to the five lead bits then the six trailing bits |
| Utf.Bits2 | utf.c:130-132 | the two bytes written for a value are a valid lead and continuation that reassemble the value |
| Utf.RoundTrip3 | utf.c:135-143 | the three-byte encoding decodes back to the value |
| Utf.Decode3 | utf.c:172-199 | a three-byte sequence decodes to four lead bits and two groups of six |
| Utf.Trail2 | utf.c:190-199 | folding two continuation bytes appends their twelve payload bits |
| Utf.Trail1 | utf.c:198 | folding one continuation byte appends its six payload bits |
| Utf.Bits3 | utf.c:137-141 | the three bytes written for a value are a valid lead and continuations that reassemble the value |
| Utf.RoundTrip4 | utf.c:144-154 | the four-byte encoding decodes back to the value |
| Utf.Decode4 | utf.c:177-199 | a four-byte sequence decodes to three lead bits and three groups of six |
| Utf.Bits4 | utf.c:146-152 | the four bytes written for a value are a valid lead and continuations that reassemble the value |
| Utf.LeadAnnouncesLength | utf.c:5-24 | the lead byte of an encoding announces exactly the encoding's length, and the rest are continuation bytes |
| Utf.UStringLength | utf.c:26-37 | on a string whose lead bytes keep the index moving, the count of lead positions walked |
| Utf.WalkShift | utf.c:31-35 | the walk over a suffix counts the same after any prefix it starts behind |
| Utf.CountEncodeAll | utf.c:26-37 | the length of the concatenated encodings of n code points is n |
| Utf.NulIndex | utf.c:208 | the position of the first NUL byte of a C string |
| Utf.Step | utf.c:210 | one step of lit_uchar_offset moves forward by 1 to 4 bytes, over continuation bytes only, stopping at a non-continuation byte or after four |
| Utf.OffsetFrom | utf.c:208-212 | stepping forward never passes the terminating NUL |
| Utf.UCharOffset | utf.c:203-215 | the loop returns OffsetFrom(s, 0, index), never past the NUL |
| Utf.DecodeAcceptsHighLead | utf.c:177-181 | lead bytes F5 to F7 still decode, here to 0x1FFFFF, a value no code point has and that lit_ustring_encode cannot encode |
| Utf.DecodeFits | utf.c:159-201 | a decoded value is -1, or an encodable value no longer than its lead byte announced, or (four-byte leads only) a value above U+10FFFF |
| Utf.DecodeFits2 | utf.c:167-171 | a two-byte lead decodes to at most 0x7FF |
| Utf.DecodeFits3 | utf.c:172-176 | a three-byte lead decodes to at most 0xFFFF |
| Utf.DecodeFits4 | utf.c:177-181 | a four-byte lead decodes below 2^21 |
| Utf.TrailFirst | utf.c:190-199 | the fold fails on a first byte that is not a continuation, and otherwise goes on with it folded in |
| Utf.RangeLengthGrows | utf.c:82-85 | the counted length only grows with the number of positions |
| Utf.RangeBytes | utf.c:88-96 | the bytes the second loop of from_range writes never exceed the length the first loop counted; none when a position decodes to an unencodable value |
| Utf.PositionFits | utf.c:91-95 | a decodable position re-encodes in no more bytes than its lead announced |
| Utf.FromRange | utf.c:71-98 | the result string holds the re-encoded code points of the count positions from start, in order, skipping positions that do not decode, inside a buffer of the counted length; no result exactly when a position decodes above U+10FFFF |
| Utf.RangeStep | utf.c:88-96 | one pass of the second loop either appends the position's encoding or skips it, or shows the whole range has no result |
| Utf.Append | utf.c:94 | the encoding goes after the bytes written so far |
| Utf.DecodeIn | utf.c:91 | decoding at a position of the string, with the bytes up to its end |
| Utf.CountRange | utf.c:82-85 | the first loop adds up the lead-byte counts of the positions |
| Utf.RangeBytesSkip | utf.c:92 | a position that does not decode adds nothing |
| Utf.RangeBytesStop | utf.c:94 | a position decoding above U+10FFFF leaves the range without a result |
| Utf.RangeBytesAppend | utf.c:92-95 | a decodable position adds its encoding, which fits in the counted length |
| Utf.NoneStaysNone | utf.c:88-96 | once the range has no result, longer ranges have none either |
| Utf.FromRangeRejectsHighLead | utf.c:177-181 | a range holding F7 BF BF BF has no result (the source reaches the UNREACHABLE of lit_ustring_encode) |
| Utf.DecodeChecked | utf.c:159-201 | corrected decode: -1 or a value that is encodable and no longer than its lead announced, and equal to the source's value whenever it is not -1 |
| Utf.RangeBytesChecked | utf.c:71-98 | corrected from_range: always defined, never longer than the counted length, and equal to the source's bytes wherever those exist |
| Utf.FromCodePoint | utf.c:57-69 | the string made from a code point is as long as lit_encode_num_bytes says and decodes back to the code point |
| Utf.DecodeBelow | utf.c:159-201 | a decoded value is -1 or below 2^21, never another negative word |
| Utf.CodePointAt | utf.c:39-55 | none past the end; a lone byte where nothing decodes; otherwise a string of at most the lead's length that decodes to the same code point |
| Utf.CodePointAtEncoding | utf.c:39-55 | at the start of an encoded code point, the result is exactly its encoding |
| Utf.EncodingHasNoNul | utf.c:121-157 | the encoding of a code point other than U+0000 contains no NUL byte |
| Utf.EncodeAllHasNoNul | utf.c:121-157 | nor does the encoding of a list of them |
| Utf.NulIndexAfter | utf.c:208 | the NUL appended after NUL-free bytes is the terminator |
| Utf.FlattenHasNoNul | utf.c:208 | concatenated UTF-8 groups contain no NUL |
| Utf.StepOverGroup | utf.c:210 | one step from a group's lead byte lands just past the group |
| Utf.OffsetSkipsGroups | utf.c:203-215 | k steps over concatenated groups land at the end of the first k groups |
| Utf.Encodings | utf.c:121-157 | one encoding per code point, in order |
| Utf.EncodingIsGroup | utf.c:121-157 | each encoding is one lead byte followed by its continuation bytes |
| Utf.EncodeAllFlattens | utf.c:121-157 | the encoded string is the concatenation of the groups |
| Utf.EncodingsAreGroups | utf.c:121-157 | every code point's encoding is one group |
| Utf.OffsetSkipsEncodings | utf.c:203-215 | on a well-formed NUL-free string, lit_uchar_offset(s, k) is the byte offset where code point k starts |
| Util.ClosestPowOf2 | util.c:181-191 | for 1 <= n <= 2^30 the result is the least power of two at or above n; 0 gives 0 |
| Util.Strlen | util.c:199 | the index of the first NUL: the string before it holds none |
| Util.Dotted | util.c:212-219 | same length, every '/' and '\\' replaced by '.', every other character kept |
| Util.PatchedNameShape | util.c:194-221 | a module name holds no separator and is never longer than the file name |
| Util.PatchedNameExamples | util.c:201-211 | "./tests/basic.lit" becomes "tests.basic", "lib\\util.lbc" becomes "lib.util"; ".lit" keeps its extension (not longer than 4) and "./" keeps its prefix (not longer than 2), becoming ".." |
| Util.PatchFileName | util.c:194-221 | the returned start (0 or 2 into the buffer) is followed by the patched module name and a NUL; the bytes before the start are unchanged |
| Util.SkipAndDot | util.c:206-219 | after the extension step: the "./" is skipped when more than two characters remain and the rest is dotted, the bytes in front kept |
| Util.SkipDotSlash | util.c:206-211 | a leading "./" is skipped only when the name is longer than 2 |
| Util.DropExtension | util.c:199-205 | a NUL is written over the dot of a ".lit" or ".lbc" extension when the name is longer than 4; otherwise the name is unchanged |
| Util.StrlenOf | util.c:199 | the strlen loop returns the index of the first NUL |
| Util.ReplaceSeparators | util.c:212-219 | the loop dots exactly the separators among the name's characters and changes no other byte of the buffer |
| Util.CopyString | util.c:223-231 | a fresh buffer holding the string and its NUL, byte for byte, of the same strlen |
| Sds.ReqType | sds.h:510-533 | the header type is the smallest whose length field holds the size: type 5 below 32, type 8 below 256, type 16 below 65536, type 32 below 2^32, type 64 otherwise |
| Sds.NewBuffer | sds.h:767-826 | a fresh buffer holding the initial bytes followed by a NUL |
| Sds.SdsString.NewLen | sds.h:752-828 | sdsnewlen: the string holds exactly the initial bytes with no free space; the type-5 header is used only for a non-empty string that needs it |
| Sds.SdsString.MakeRoomFor | sds.h:874-938 | length and content are kept and at least addlen bytes are free afterwards; with enough room nothing changes; otherwise the allocation becomes 2·(len+addlen) below 1 MiB, or len+addlen+1 MiB, in a fresh buffer, never type 5 |
| Sds.SdsString.CatLen | sds.h:1086-1099 | the new content is the old content followed by t, NUL-terminated, and the allocation grows as MakeRoomFor says when t did not fit |
| Sds.SdsString.CopyIn | sds.h:1095 | the copied bytes land after the bytes kept |
| Sds.SdsString.Trim | sds.h:1419-1444 | the content becomes Trimmed: the longest prefix, then the longest remaining suffix, of characters in cset removed |
| Sds.SdsString.TrimBounds | sds.h:1426-1436 | the two scans find where the kept part starts and how long it is |
| Sds.SdsString.MoveDown | sds.h:1439 | memmove brings the n bytes at from to the start and leaves the rest |
| Sds.SdsString.Range | sds.h:1446-1494 | the content becomes Ranged(old, start, end) |
| Sds.SdsString.SettleRange | sds.h:1455-1487 | the index arithmetic computes RangeBounds |
| Sds.SdsString.MapChars | sds.h:1948-1966 | every character is mapped through the first matching `from` entry; the length is kept |
| Sds.LeadingIn | sds.h:1428-1431 | the first position from i whose character is not in cset, with every character before it in cset |
| Sds.TrailingIn | sds.h:1432-1435 | the end after dropping the cset suffix, never dropping the first kept character |
| Sds.RangeBounds | sds.h:1455-1487 | the settled start is not negative and the settled range lies inside the string |
| Sds.RangeMeaning | sds.h:1446-1494 | the range is inclusive at both ends; a negative index counts from the end and is floored at 0; an end past the string is clamped to the last character; an inverted range or a start past the end gives the empty string |
| Sds.RangeExample | sds.h:361-377 | "Hello World" with 1, -1 gives "ello World" |
| Sds.MapCharFirst | sds.h:1955-1963 | a character is replaced by `to` at the first index where `from` matches it, and is kept when none matches |
| Sds.MapAll | sds.h:1948-1966 | same length, each character mapped independently |
| Sds.TrimMeaning | sds.h:1419-1444 | what trim keeps is a slice between a cset-only prefix and a cset-only suffix, and it neither starts nor ends with a cset character |
| Sds.Cmp | sds.h:1518-1541 | 0 exactly for equal strings, negative exactly when the first orders before the second lexicographically by byte (a proper prefix first), positive for the reverse |
| Sds.CmpOrders | sds.h:1526-1540 | the memcmp-then-length computation has those three meanings |
| Sds.CmpAntisymmetric | sds.h:1518-1541 | swapping the arguments flips the sign and keeps 0 |
| Sds.MapExample | sds.h:457-466 | "hello" with "ho" to "01" gives "0ell1" |
| Sds.Digits | sds.h:1154-1158 | the decimal form of v: at least one digit, all digits, no leading zero |
| Sds.Reverse | sds.h:1166-1175 | the reversal of a sequence |
| Sds.DigitsReversed | sds.h:1148-1175 | the least-significant-first digits, reversed, are the decimal form |
| Sds.ParseDigitsInverts | sds.h:1142-1177 | reading the decimal form back gives the value |
| Sds.SignedRoundTrip | sds.h:1142-1177 | reading the signed decimal form back gives the value |
| Sds.DigitsLength | sds.h:1142-1177 | a value below 10^k has at most k digits |
| Sds.RevDigitsLength | sds.h:1142-1209 | a 64-bit value has at most 20 digits, a non-negative 63-bit one at most 19, so the text fits SDS_LLSTR_SIZE |
| Sds.WriteRevDigits | sds.h:1154-1158 | the do/while loop writes the digits least significant first |
| Sds.PutChar | sds.h:1156 | one store extends the written prefix by the digit |
| Sds.ReverseInPlace | sds.h:1166-1175 | the swapping loop reverses the first l characters and leaves the rest |
| Sds.Ll2Str | sds.h:1142-1177 | for value > LLONG_MIN, the buffer holds the signed decimal form of value and a NUL, and the length returned is that of the text |
| Sds.SignedFromRev | sds.h:1159-1175 | reversing the digits with a trailing '-' gives the signed decimal form |
| Sds.Ull2Str | sds.h:1180-1209 | the buffer holds the decimal form of the unsigned value and a NUL |
| Sds.ReverseConcat | sds.h:1166-1175 | reversing a concatenation reverses and swaps the parts |
| Sds.SplitFromJoins | sds.h:1569-1601 | the tokens of the scan joined with the separator give the scanned text back |
| Sds.SplitFromNonEmpty | sds.h:1596-1601 | a scan always yields the final token |
| Sds.SplitFromNoSep | sds.h:1583 | no token holds the separator, because the scan checked every position |
| Sds.SplitAllMeaning | sds.h:1543-1615 | the tokens joined with the separator give the input back, and no token contains the separator |
| Sds.SplitLen | sds.h:1543-1615 | no result exactly when the separator is empty or the length negative; otherwise the tokens SplitAll gives (none for an empty input) |
| Sds.JoinArgs | sds.h:1968-1982 | the joined string is the arguments with the separator between neighbours |
| Sds.JoinStep | sds.h:1974-1980 | each round appends the separator (after the first) and the next argument |
| Sds.JoinSnoc | sds.h:1968-1982 | joining one more token adds the separator and the token |
| Sds.HexDigitToInt | sds.h:1703-1752 | the value of a hex digit in either case, 0 for any other character |
| Sds.HexDigitRoundTrip | sds.h:1694-1752 | reading a written hex digit back gives its value |
| Sds.SkipBlanks | sds.h:1771-1775 | the blank-skipping loop stops at the first non-space or the end |
| Sds.Token | sds.h:1776-1935 | the token loop consumes at least one character when any remains, and never runs past the end |
| Sds.TokenWord | sds.h:1776-1935 | a bare word followed by a blank or the end is one token |
| Sds.ArgsWords | sds.h:1755-1945 | words joined by single spaces split back into the same words |
| Sds.SplitArgsWords | sds.h:1755-1945 | the same, from the start of the line |
| Sds.SplitArgsRejects | sds.h:1755-1945 | text right after a closing quote, and unbalanced quotes, give no result |
| Sds.QuotedToken | sds.h:1790-1853 | a double-quoted argument decodes \x41 and \n |
| Sds.SplitArgsEscapes | sds.h:1755-1945 | `a "b\x41\n"` splits into "a" and "bA" followed by a newline |
| LibString.Bytes | libstring.c:147 | the bytes of a string, one per character |
| LibString.StepAscii | libstring.c:147-148 | on a byte below 0x80 one hash step is one FNV-1a step |
| LibString.HashIsFnv1aOnAscii | libstring.c:140-151 | on bytes below 0x80 lit_hash_string is 32-bit FNV-1a (basis 2166136261, prime 16777619, wrapping) |
| LibString.HighByteIsSignExtended | libstring.c:147 | a byte at or above 0x80 is XORed in sign-extended (its upper 24 bits set), unlike FNV-1a |
| LibString.HashString | libstring.c:140-151 | the loop computes the hash function over every byte |
| LibString.GlyphRoundTrip | libstring.c:74 | reading the digit character of d < 36 back gives d |
| LibString.DivMod | libstring.c:73 | the division facts the digit loop relies on |
| LibString.TruncDivStep | libstring.c:72-74 | with C's truncating division, the table character at 35 + remainder is the digit of abs(value) mod base, for either sign |
| LibString.RevBaseDigits | libstring.c:70-75 | the do/while loop yields at least one digit |
| LibString.BaseDigits | libstring.c:57-89 | the digits most significant first, without leading zeros or a sign |
| LibString.BaseDigitsReversed | libstring.c:81-87 | reversing the loop's digits gives the most-significant-first digits |
| LibString.ParseBaseSnoc | libstring.c:57-89 | reading one more digit multiplies by the base and adds it |
| LibString.ParseBaseInverts | libstring.c:57-89 | reading the digits back gives the value |
| LibString.ParseBaseLast | libstring.c:57-89 | the inductive step of the round trip |
| LibString.ItoaRoundTrip | libstring.c:57-89 | in a base of 2 to 36, reading back what itoa writes (with its '-') gives the value |
| LibString.ItoaTextFromRev | libstring.c:76-87 | the reversed loop output with the sign is the itoa text |
| LibString.Itoa | libstring.c:57-89 | the buffer holds ItoaText(value, base) and a NUL: the signed digits in a base of 2 to 36, the empty string otherwise |
| LibString.ItoaDigitStep | libstring.c:70-75 | one pass of the digit loop writes the next digit of the value |
| LibString.WriteItoaDigits | libstring.c:70-75 | the do/while loop writes the digits least significant first, within the buffer |
| LibString.RevBaseDigitsLength | libstring.c:70-75 | a value below 2^k has at most k digits, so 34 bytes hold any C int in any base |
| LibString.Pow2 | libstring.c:57-89 | a power of two is positive |
| LibString.Pow2ThirtyTwo | libstring.c:57-89 | 2^32 written out |
| LibString.NegDigitIs | libstring.c:97-105 | for x <= 0 the character '0' - x % 10 is the last decimal digit of -x, and x / 10 truncates toward zero |
| LibString.IntToStringHelper | libstring.c:91-107 | the digits of -x (x <= 0) when they fit in n characters, NULL otherwise |
| LibString.IntToString | libstring.c:109-138 | the signed decimal form of x and a NUL when it fits in n bytes, NULL otherwise |
| LibString.IntToStringRoundTrip | libstring.c:109-138 | the text written reads back as x, INT_MIN included |
| LibString.DigitsCount | libstring.c:91-107 | a number with k decimal digits needs exactly k characters |
| LibString.IntToStringEdges | libstring.c:109-138 | INT_MIN needs 12 bytes and fails with 11; 0 needs 2 and fails with 1 |
| LibString.Register | libstring.c:191-199 | a non-empty string becomes a key of the strings table with value null; an empty one is not registered |
| LibString.StringCopy | libstring.c:202-243 | when a string with these bytes is interned it is returned and the table is unchanged; otherwise a new string with these bytes and their hash is created and registered |
| LibString.FormattedPlain | libstring.c:305-393 | a format without directives comes back unchanged |
| LibString.FormattedExamples | libstring.c:305-393 | each directive is replaced by its argument; a missing argument keeps the directive character |
| LibString.Format | libstring.c:305-393 | a new string holding the formatted text and its hash, registered when non-empty |
| LibString.FormatText | libstring.c:321-389 | the loop over the format builds the formatted text |
| LibString.FormatStep | libstring.c:321-389 | one format character either splices its argument (or itself when the argument is missing) or is copied |
| LibString.StartsWith | libstring.c:604-627 | true exactly when sub is a prefix of the string (so false when longer, true for the same object) |
| LibString.EndsWith | libstring.c:629-654 | true exactly when sub is a suffix of the string |
| LibString.CView | libstring.c:587-601 | what C sees of a byte sequence: the bytes before the first NUL |
| LibString.Contains | libstring.c:587-601 | true for the same object, or when strstr finds sub's C view in the string's; on NUL-free strings exactly when sub occurs; always for an empty sub |
| LibString.PrefixContained | libstring.c:587-627 | a prefix is contained |
| LibString.StrnEqPrefix | libstring.c:677 | strncmp over a NUL-free pattern's length finds exactly a prefix |
| LibString.ReplaceByItself | libstring.c:657-705 | replacing a pattern by itself changes nothing |
| LibString.ReplaceAbsent | libstring.c:657-705 | with no occurrence, the text is unchanged |
| LibString.ReplaceExample | libstring.c:657-705 | "aaa" with "aa" to "b" gives "ba"; "a.b" with "." to "::" gives "a::b" |
| LibString.NextAfterMatch | libstring.c:679 | the index step after a match, i += length - 1 then i++, in size_t |
| LibString.EmptyWhatStandsStill | libstring.c:675-681 | as written an empty pattern matches everywhere and the index step brings i back to itself, so the first loop never ends on a non-empty string |
| LibString.NextAfterMatchSkips | libstring.c:679 | with a non-empty pattern the step skips exactly the match |
| LibString.Replace | libstring.c:657-705 | a non-string argument fails with "expected 2 string arguments"; otherwise the result is the string with every non-overlapping occurrence replaced left to right, hashed and interned; an empty pattern (corrected) gives the string back |
| LibString.ReplacedLength | libstring.c:674-686 | the first pass computes the length of the replaced text |
| LibString.WriteReplaced | libstring.c:687-702 | the second pass writes exactly the replaced text into the buffer of that length |
| LibString.ReplacedNext | libstring.c:675-702 | one scan step: a match emits `with` and skips the pattern, anything else copies one byte |
| LibString.CopyInto | libstring.c:693 | the memcpy extends the written prefix |
| LibString.StringIterator | libstring.c:725-752 | from null, 0 (or null for an empty string); a negative index gives null; from an index, the next index whose byte is not a continuation byte, or null past the end |
| LibString.NativeStringIterator | libstring.c:725-752 | a non-null, non-number argument fails with lit_check_number's error; otherwise the answers of StringIterator |
| LibMap.Assigned | object.c:318-326 | the map after storing value at key: null removes the key, any other value is stored, other keys keep theirs |
| LibMap.Map.constructor | object.c:309-316 | a new map has an empty table and no index hook |
| LibMap.Map.Set | object.c:318-326 | the contents become Assigned(old contents, key, value); the answer is true exactly when a non-null value was stored under a new key |
| LibMap.Map.Subscript | libmap.c:43-74 | a non-string index is the runtime error "map index must be a string"; with an index hook the hook answers; otherwise an assignment stores (or deletes on null) and returns the value, and a read returns the stored value or null |
| LibMap.Map.AddAll | object.c:338-350 | every pair of the other map is set here, its values winning |
| LibMap.Map.Clone | libmap.c:115-125 | a fresh map with the same pairs and no hook |
| LibMap.Map.ClearAsWritten | libmap.c:88-95 | as written only the count drops to 0: every entry stays in the buffer, and every lookup fails |
| LibMap.Map.Clear | libmap.c:88-95 | corrected: the map is empty |
| LibMap.ClearThenSetResurrects | libmap.c:88-95 | after the clear as written, storing one new key makes an old key visible again with its old value |
| LibMap.ClearThenSetHangs | libmap.c:88-95 | after the clear as written on a table full but for one slot, the second store of a new key probes forever |
| LibMap.TableIterator | libmap.c:4-24 | the first index after number below capacity whose entry has a key, and -1 exactly when the count is 0 or no later slot has a key; a found key is in the table |
| LibMap.TableIteratorKey | libmap.c:26-33 | null at or past the capacity; otherwise the key object of the entry (a boxed null pointer on an empty slot) |
| LibMap.FirstRead | libmap.c:4-14 | as written the first entry read is number + 1, when the count is positive and number is below the capacity |
| LibMap.IteratorReadsBeforeEntries | libmap.c:97-106 | a number at or below -2 passed by the iterator makes the scan read before the first entry |
| LibMap.MapIterator | libmap.c:97-106 | corrected: null starts from -1, a number below -1 is treated as -1; the answer is the next index holding a key, or none |
| LibMap.NativeMapIterator | libmap.c:97-106 | anything but one argument is the argument-count error; from null the first index holding a key, with no key before it |
| LibMap.NativeAddAll | libmap.c:76-85 | anything but one argument is the argument-count error; a non-map is "expected map as the argument"; otherwise every pair is added |
| LibArray.Nulls | libarray.c:219-222 | n null values |
| LibArray.RemovedAt | libarray.c:246-273 | the list without the element at i: the ones before unchanged, the ones after moved down by one |
| LibArray.Inserted | libarray.c:429-458 | the list with v at i, the later elements moved up by one, and nulls in between when i is past the end |
| LibArray.Assigned | libarray.c:331-345 | the list with v at i, extended with nulls when i is past the end; every other element unchanged |
| LibArray.RemoveUndoesInsert | libarray.c:246-273 | removing what was just inserted gives back the list (padded with nulls when i was past its end) |
| LibArray.InsertUndoesRemove | libarray.c:246-273 | inserting the removed element back where it was gives back the list |
| LibArray.FirstIndex | libarray.c:232-243 | -1 exactly when v is absent; otherwise an index holding v with no v before it |
| LibArray.FirstIndexOfPushed | libarray.c:232-243 | a value pushed onto a list not holding it is found at the end |
| LibArray.ValueList.constructor | libarray.c:96-105 | a new list has no buffer, count 0 and capacity 0 |
| LibArray.ValueList.Count | libarray.c:117-129 | the count never exceeds the capacity |
| LibArray.ValueList.Capacity | libarray.c:131-138 | the buffer's length |
| LibArray.ValueList.Get | libarray.c:180-187 | any slot of the buffer; below count, that element of the list |
| LibArray.ValueList.Set | libarray.c:169-177 | the slot takes the value, nothing else changes, and the value is returned |
| LibArray.ValueList.SetCount | libarray.c:140-147 | the count becomes the new count |
| LibArray.ValueList.Clear | libarray.c:150-157 | the list is empty |
| LibArray.ValueList.Destroy | libarray.c:107-115 | the buffer is released and the list is empty with capacity 0 |
| LibArray.ValueList.DecCount | libarray.c:160-167 | the last element leaves the list; the others are unchanged |
| LibArray.ValueList.Grow | lit.h:151-152 | a buffer of the new capacity whose first old-capacity slots are the old ones |
| LibArray.ValueList.Push | libarray.c:189-204 | the value is appended; a full buffer grows by LIT_GROW_CAPACITY (0, 8, 16, ...) |
| LibArray.ValueList.EnsureSizeAsWritten | libarray.c:207-230 | as written only the newly allocated slots are nulled, so slots between count and the old capacity keep stale values as the count rises to size |
| LibArray.ValueList.EnsureSize | libarray.c:207-230 | corrected: the list becomes at least size long, its elements unchanged and the new ones null |
| LibArray.IndexOf | libarray.c:232-243 | the first index holding a bit-identical value, -1 exactly when it is absent |
| LibArray.FirstIndexAt | libarray.c:232-243 | an index holding v with no v before it is the first index |
| LibArray.RemoveAt | libarray.c:246-273 | past the end, null and nothing changes; otherwise the element is returned and removed, and the freed slot is null |
| LibArray.Remove | libarray.c:488-500 | the first element equal to the value is removed and returned; an absent value gives null and no change |
| LibArray.Contains | libarray.c:513-517 | true exactly when the value is in the list |
| LibArray.NormalizedIndex | libarray.c:338-342 | corrected: a negative index counts from the end, floored at 0 |
| LibArray.NormalizedIndexAgrees | libarray.c:338-342 | the written index arithmetic agrees with NormalizedIndex down to -count and is undefined below it |
| LibArray.NegativeIndexBelowCountIsUndefined | libarray.c:338-342 | `[1, 2, 3][-5]`: the floor that should give 0 is never reached |
| LibArray.Insert | libarray.c:429-458 | corrected: the list becomes Inserted(list, position, value), by the corrected NormalizedIndex and EnsureSize |
| LibArray.SetAfterExtend | libarray.c:443-446 | setting slot i of the list padded past i inserts there |
| LibArray.SetAfterShift | libarray.c:447-455 | setting slot i of the list shifted up from i inserts there |
| LibArray.ShiftUp | libarray.c:450-453 | the shifting loop moves every element from the position on up by one |
| LibArray.SubscriptSet | libarray.c:331-345 | a non-number index is "array index must be a number"; otherwise the value is returned and the list becomes Assigned(list, position, value), with the corrected NormalizedIndex |
| LibArray.SubscriptGetAsWritten | libarray.c:355-366 | as written null only at or past the capacity, so a slot past count is read |
| LibArray.SubscriptGet | libarray.c:355-366 | corrected: the element at the position, or null past the end of the list |
| LibArray.Pop | libarray.c:734-751 | the last element is returned and leaves the list; an empty list gives null |
| LibArray.PopThenGetReadsStale | libarray.c:355-366 | after push(true) and pop(), reading index 0 as written gives true, as intended null |
| LibArray.PopThenExtendReadsStale | libarray.c:207-230 | after push(true) and pop(), extending to three elements as written brings true back at index 0, as intended null |
| LibArray.Iterator | libarray.c:528-546 | from a non-number, 0 (null on an empty list); from n, n + 1 while n is before the last index, null otherwise |
| LibArray.IteratorVisitsAll | libarray.c:528-546 | iterating from the start visits 0, 1, ..., count - 1 and stops |
| LibArray.Splice | libarray.c:288-315 | corrected: from greater than to (after counting negatives from the end) is the runtime error; otherwise the elements from max(from, 0) through min(to, length - 1) |
| LibArray.SpliceAgrees | libarray.c:288-315 | where the written arithmetic is defined, it agrees with Splice |
| LibArray.SpliceFromPastEndIsUndefined | libarray.c:307-313 | `[1, 2, 3].slice(5, 10)`: the copy count is negative as written, while Splice gives the empty list |
| LibArray.SpliceWhole | libarray.c:288-315 | splicing 0 through -1 gives the whole list |
| LibArray.SpliceCopy | libarray.c:288-315 | fails exactly when Splice does; otherwise a fresh list holding Splice's elements |
| LibArray.CopyRange | libarray.c:310-313 | the copy loop pushes exactly the selected elements |
| LibArray.Clone | libarray.c:638-659 | a fresh list with the same elements and a buffer of exactly count slots |
| LibArray.AddAll | libarray.c:418-426 | every value is appended in order (also objfn_array_addall, corrected) |
| LibArray.AddAllAsWritten | libarray.c:460-477 | as written the loop re-reads the other list's count, so adding a non-empty list to itself never finishes; another list is appended in full |
| LibArray.AddSelfKeepsGoing | libarray.c:460-477 | `a = [true]; a.addAll(a)` after a million passes is still running |
| LibArray.NativeAddAll | libarray.c:460-477 | anything but one argument is the argument-count error, a non-array "expected array as the argument"; otherwise the other list's elements (taken before the loop) are appended |
| LibArray.NativeInsert | libarray.c:429-458 | anything but two arguments, or a non-number position, is a runtime error and nothing changes; otherwise as Insert |
| LibArray.NativeSlice | libarray.c:317-324 | each missing or non-number argument is lit_check_number's error, in order; otherwise as SpliceCopy |
| LibArray.NativeRemoveAt | libarray.c:502-511 | a non-number is lit_check_number's error; a negative index gives null and changes nothing; otherwise as RemoveAt |
| LibArray.NativeSubscript | libarray.c:326-367 | a non-number, non-range index is "array index must be a number"; a range splices; otherwise as SubscriptSet or SubscriptGet |
| LibArray.NativeIterator | libarray.c:528-546 | anything but one argument is the argument-count error; otherwise the answers of Iterator |
| Api.EnsureArgs | lit.h:382-386 | an error exactly when the native got another number of arguments, naming the expected and the actual count |
| Api.CheckNumber | api.c:96-104 | succeeds only with a number at the position; otherwise "expected a number as argument #id", naming "null" when the position is at or past the count taken modulo 256 |
| Api.CheckNumberAccepts | api.c:96-104 | with fewer than 256 arguments the check passes exactly for a number at the position, and names the argument's type otherwise |
| Api.CheckNumberWrapsCount | api.c:96 | as written 256 arguments arrive as a uint8_t count of 0: even a number in the first position is reported as a missing null |
| Core.CompareDispatch | libcore.c:159-168 | two numbers are compared as doubles and never reach the `<` method; anything else is ordered by the truthiness of the `<` call |
| Core.Combine | libcore.c:202-204 | sorting the two halves of a partitioned range in turn permutes the whole range |
| Core.Swap | libcore.c:196-198 | l[i] and l[j] trade places and the range stays a permutation |
| Core.Halves | libcore.c:202-204 | the two halves of a range together are the range |
| Core.IsFiberDone | libcore.c:106-109 | a fiber that is not done has at least one frame left to run |
| Core.Partition | libcore.c:180-200 | the partition loop stops at a split point strictly inside the range (so both recursive calls are smaller) and only permutes the range |
| Core.BasicQuickSort | libcore.c:170-205 | the range ends a permutation of what it was; a range shorter than two is untouched |
| Core.Succeeds | libcore.c:53-104 | a comparator that answers once is not one that always fails |
| Core.CustomPartition | libcore.c:61-97 | the range ends a permutation; a failing comparator call ends the sort, and a comparator that always fails leaves the range untouched |
| Core.CustomQuickSort | libcore.c:53-104 | the range ends a permutation of what it was; a range shorter than two, or a comparator that always fails, leaves it untouched |
| Core.Padded | libcore.c:135-138 | the first `to` argument slots: the arguments passed, then nulls |
| Core.PaddedArguments | libcore.c:130-154 | the slots util_run_fiber pushes for the arguments are the ones a call leaves in the VM |
| Core.StartedMeaning | libcore.c:124-155 | a fresh start leaves room for the whole frame, points the top frame's slots at the function, which sits above the old live values and is followed by exactly its arity of argument slots |
| Core.RunFiber | libcore.c:111-157 | a finished fiber is the error "Fiber already finished executing" and nothing changes; otherwise the fiber resumes from the running one and, at its first instruction, its frame is set up as Started describes |
| Core.Begin | libcore.c:124-156 | only a top frame at its first instruction is set up; any other fiber's stack and frames are unchanged |
| Core.Resume | libcore.c:120-122 | the fiber's parent is the running fiber, its catcher flag is set and it becomes the VM's fiber |
| Core.StartFrame | libcore.c:124-156 | the fiber's stack and frames become Started(old view, ...) with the argument count the function's arity |
| Core.FrameRoom | libcore.c:126-127 | the stack grows to hold the function's slots, itself and the live values, and the top frame's slots point at the stack top |
| Core.SetSlots | libcore.c:127-132 | the top frame's slots point at the stack top and the argument count is the arity |
| Core.PushCall | libcore.c:128-155 | the function, the argument slots and, when vararg, a fresh array holding the extra arguments are pushed |
| Core.PushPadded | libcore.c:133-136 | the argument loop pushes argv[i] for the first `to` slots, null past argc |
| Core.VarargArray | libcore.c:137-154 | a fresh array holding the argc - arity + 1 arguments from the last parameter on |
| Emit.LineAfter | ccemit.c:93-103 | the line recorded is the one given, raised to the last one written |
| Emit.RisingMeans | ccemit.c:93-103 | rising lines never have one above a later one |
| Emit.OrderedAfter | ccemit.c:93-103 | recording the line emit_byte picks keeps the recorded lines in order |
| Emit.Account | ccemit.c:125-136 | slots moves by the sum of the effects and max_slots never goes down |
| Emit.AccountReaches | ccemit.c:125-149 | max_slots is the highest value slots reaches after each effect, or where it started |
| Emit.HighLow | ccemit.c:177-180 | the two bytes give the short back, high byte first |
| Emit.JumpDistance | ccemit.c:525-536 | the distance runs from just after the two placeholder bytes to the end of the code |
| Emit.LoopDistance | ccemit.c:538-549 | the distance runs back from just after the operand to the loop start |
| Emit.ScopeStart | ccemit.c:410-421 | the scan back from the end stops just after the last initialised local of an outer scope |
| Emit.ClashesMean | ccemit.c:410-424 | every redefinition error names the local, and there is one exactly when a local of the current scope has that name |
| Emit.LastIndex | ccemit.c:434-454 | -1 exactly when no local has the name; otherwise the last local with it |
| Emit.DeclareThenResolve | ccemit.c:404-454 | a local just added is what resolve_local finds, with the used-in-its-own-initialiser error until it is marked initialised, and none after |
| Emit.Survivors | ccemit.c:291-304 | how many locals survive a scope exit: the scan back stops at the start or at a local no deeper than the depth |
| Emit.SurvivorsAre | ccemit.c:291-304 | Survivors is where the scan stops, and every local past it is deeper |
| Emit.DeeperMeans | ccemit.c:291-304 | every local from k on is deeper than the depth |
| Emit.SurvivorsAreShallow | ccemit.c:291-304 | on nested locals exactly the ones deeper than the depth are popped |
| Emit.ExitOps | ccemit.c:293-300 | one OP_CLOSE_UPVALUE or OP_POP for each popped local, from the last one back |
| Emit.ExitOpsBackwards | ccemit.c:293-300 | the j-th opcode is for the j-th local from the end, OP_CLOSE_UPVALUE exactly when it is captured |
| Emit.Effects | ccemit.c:105-109 | the stack-effect table entries of a run of opcodes |
| Emit.FirstUpvalue | ccemit.c:460-468 | -1 exactly when the entry is absent; otherwise its first index |
| Emit.UpvalueAdded | ccemit.c:456-480 | corrected: add_upvalue keeps the entries distinct and within the UINT8_COUNT array, keeps the old ones, and, unless the array is full, returns the index of the entry |
| Emit.FullUpvalues | ccemit.c:456-480 | 256 distinct entries, one per enclosing slot |
| Emit.UpvalueOverflow | ccemit.c:471-479 | as written a 257th upvalue is stored past the 256-entry array (the check compares against UINT16_COUNT); corrected, the array is left as is and 0 is returned |
| Emit.Compiler.constructor | ccemit.c:195-233 | the reserved local ("this" in methods, otherwise unnamed) at depth -1, scope depth 0, no upvalues, one slot in use |
| Emit.ResolveFails | ccemit.c:482-505 | resolve_upvalue fails exactly when no enclosing compiler has a local of that name |
| Emit.RepeatMore | ccemit.c:285-305 | every element of a repeated line list is the line |
| Emit.Emitter.constructor | ccemit.c:70-85 | an emitter over the chunk with last line 0 and no errors |
| Emit.Emitter.Put | ccemit.c:93-103 | lit_write_chunk on a line no earlier than the last, which becomes the last |
| Emit.Emitter.EmitByte | ccemit.c:93-103 | the byte is appended on the given line, or on the last line when that is later |
| Emit.Emitter.EmitBytes | ccemit.c:111-123 | both bytes are appended on the line emit_byte would pick |
| Emit.Emitter.EmitOp | ccemit.c:125-136 | the opcode is appended, slots moves by its effect and max_slots rises to it |
| Emit.Emitter.EmitOps | ccemit.c:138-149 | both opcodes are appended and their effects are added together before max_slots is compared |
| Emit.Emitter.EmitVaryingOp | ccemit.c:151-162 | the opcode and its argument are appended and slots drops by the argument |
| Emit.Emitter.EmitArgedOp | ccemit.c:164-175 | the opcode and its argument are appended with the opcode's own effect |
| Emit.Emitter.EmitShort | ccemit.c:177-180 | the value is appended big-endian |
| Emit.Emitter.EmitByteOrShort | ccemit.c:182-193 | an index up to 255 follows the short opcode as one byte; a larger one follows the long opcode as a short |
| Emit.Emitter.EmitConstant | ccemit.c:327-346 | the constant is added; its index follows OP_CONSTANT below 255, OP_CONSTANT_LONG below 65535, and otherwise the too-many-constants error is reported and nothing is emitted |
| Emit.Emitter.EmitConstantIndex | ccemit.c:331-343 | the emitting half of emit_constant for the index the chunk gave |
| Emit.Emitter.EmitByteOrShortLong | ccemit.c:184-188 | the long opcode, then the index big-endian |
| Emit.Emitter.EmitJump | ccemit.c:517-523 | the opcode and a 0xffff placeholder are appended, and the placeholder's offset is returned |
| Emit.Emitter.PatchJump | ccemit.c:525-536 | the placeholder takes JumpDistance big-endian, nothing else changes, and a distance over 65535 reports the jump-too-big error |
| Emit.Emitter.JumpTooBigIf | ccemit.c:529-532 | the jump-too-big error is reported exactly when the distance exceeds 65535 |
| Emit.Emitter.EmitLoop | ccemit.c:538-549 | OP_JUMP_BACK and the distance back to the start, truncated to 16 bits, with the error when it exceeds 65535 |
| Emit.Emitter.BeginScope | ccemit.c:280-283 | the scope depth goes up by one |
| Emit.Emitter.EndScope | ccemit.c:285-305 | the depth goes down by one, the locals keep their Survivors prefix, and ExitOps is emitted for the rest |
| Emit.Emitter.PopLocals | ccemit.c:291-304 | the loop pops exactly the deeper locals from the end, one opcode each |
| Emit.Emitter.PopLocal | ccemit.c:293-302 | one round: the opcode for the last local, which leaves the list |
| Emit.Emitter.AddLocal | ccemit.c:404-432 | the local is appended uninitialised and its index returned; errors are too-many-locals at UINT16_MAX locals and one redefinition per same-named local of the current scope |
| Emit.Emitter.ReportClashes | ccemit.c:410-424 | the loop reports Clashes for the locals of the current scope |
| Emit.Emitter.MarkLocalInitialized | ccemit.c:507-510 | the local takes the current scope depth; nothing else changes |
| Emit.Emitter.ResolveLocal | ccemit.c:434-454 | the last local of that name, or -1, with the used-in-its-own-initialiser error when it is still uninitialised |
| Emit.Emitter.AddUpvalue | ccemit.c:456-480 | corrected: the entries become WithUpvalue, the answer is UpvalueSlot, and the too-many-upvalues error is reported only for a new entry into a full array |
| Emit.Emitter.ResolveUpvalue | ccemit.c:482-505 | -1 without an enclosing compiler or a local of that name anywhere out; otherwise the nearest enclosing local is marked captured and added as an upvalue, as Resolve describes |
| Emit.Emitter.CaptureLocal | ccemit.c:491-495 | the enclosing compiler's local is marked captured and becomes an upvalue entry marked local |
| Emit.Emitter.ResolveOuter | ccemit.c:497-504 | the enclosing compiler's own upvalue for the name becomes an entry that is not local |
| Emit.Emitted | ccemit.c:125-136 | emitting opcodes one by one on a line appends them, records them on that line and accounts their effects |
| Emit.EmittedStep | ccemit.c:125-136 | emitting one more opcode after a run is emitting the run with it appended |
| Emit.AccountAppend | ccemit.c:125-136 | accounting one more effect continues from where the run left slots and max_slots |
| Fs.Low | libfs.c:100-103 | the low byte of x, as a uint8_t cast keeps it |
| Fs.U16Bytes | libfs.c:105-108 | two bytes for x taken modulo 65536 |
| Fs.U32Bytes | libfs.c:110-113 | four bytes for x taken modulo 2^32 |
| Fs.DoubleBytes | libfs.c:115-118 | the eight bytes of the double's memory |
| Fs.Keyed | libfs.c:120-132 | every byte XOR LIT_STRING_KEY |
| Fs.StringBytes | libfs.c:120-132 | the uint16_t length, then that many keyed bytes: 2 + length modulo 65536 bytes |
| Fs.U16RoundTrip | libfs.c:197-200 | reading the two bytes back gives x modulo 65536 |
| Fs.U32RoundTrip | libfs.c:202-210 | reading the four bytes back gives x modulo 2^32 |
| Fs.DivModUnique | libfs.c:202-210 | Euclidean division has one quotient and one remainder |
| Fs.MulStep | libfs.c:202-210 | a larger multiplier adds at least one more m |
| Fs.SplitMod | libfs.c:202-210 | the remainder modulo d * e from the remainders modulo d and e |
| Fs.DoubleRoundTrip | libfs.c:212-223 | reading the eight bytes back gives the double |
| Fs.KeyedTwice | libfs.c:225-241 | keying twice gives the bytes back |
| Fs.HoldsSplit | libfs.c:186-241 | where a + b stands, a stands and b stands after it |
| Fs.HoldsMoved | libfs.c:186-241 | the same bytes at an offset computed another way |
| Fs.HoldsSlice | libfs.c:186-241 | where bytes stand, the source's slice from there is those bytes |
| Fs.HoldsAt | libfs.c:186-241 | where bytes stand, each source byte is the matching one |
| Fs.Input.constructor | libfs.c:186-190 | reading starts at the first byte of the source |
| Fs.Input.ReadU8 | libfs.c:192-195 | the byte at the position, which moves on by one |
| Fs.Input.ReadU16 | libfs.c:197-200 | two bytes, the first the low one; the position moves on by two |
| Fs.Input.ReadU32 | libfs.c:202-210 | four bytes, the first the lowest; the position moves on by four |
| Fs.Input.ReadDouble | libfs.c:212-223 | the double whose memory is the next eight bytes |
| Fs.Input.ReadBytes | libfs.c:217-220 | the byte loop reads the next n bytes in order |
| Fs.Input.ReadEString | libfs.c:225-241 | a uint16_t length, then that many bytes unkeyed; a length of zero gives NULL (None) |
| Fs.StringRoundTrip | libfs.c:120-132 | a string shorter than 65536 bytes reads back as itself, except the empty string, which reads back as NULL |
| Fs.LongStringReadsAsNull | libfs.c:120-132 | a string of 65536 bytes is written with length 0, so it reads back as NULL |
| Fs.StringConstant | libfs.c:386-391 | the string read, or the empty string for NULL |
| Fs.WordsBytes | libfs.c:282-288 | each line-table word in two bytes |
| Fs.WordsInUse | chunk.c:59-71 | the current pair (the words at lineCount and lineCount + 1) lies among the words in use, which end right after it |
| Fs.WordsAsWritten | libfs.c:282 | line_count * 2 + 2: the words in use for the first pair, more than them past it |
| Fs.LineBytes | libfs.c:280-293 | corrected: a count of the words in use, then those words, two bytes each; the count 0 alone without line information |
| Fs.LineBytesAsWritten | libfs.c:280-293 | as written: a count of line_count * 2 + 2, then that many words, two bytes each; the count 0 alone without line information |
| Fs.ChunkHead | libfs.c:271-295 | save_chunk starts with the code count and the code, and writes at least the three counts |
| Fs.ChunkBytes | libfs.c:271-333 | save_chunk writes the head before the constants |
| Fs.FieldBytes | libfs.c:250-253 | the argument count, upvalue count, vararg flag and slot count in six bytes |
| Fs.FieldsAt | libfs.c:263-266 | each field comes back from its bytes |
| Fs.WordsSnoc | libfs.c:282-288 | one more word adds its two bytes |
| Fs.ReloadedConstants | libfs.c:373-408 | the constants read one by one are those of the reloaded chunk |
| Fs.Reloaded | libfs.c:335-409 | the corrected reload keeps the code, the line-information flag and the number of constants, and its line table ends with the current pair, kept at its index |
| Fs.ReloadedFunction | libfs.c:256-269 | a reloaded function differs from the saved one only in its chunk, whose code it keeps |
| Fs.FourRunsOverrun | libfs.c:280-288 | after four runs the buffer holds ten words with the current pair at 6: eight words in use, where save_chunk as written reads fourteen |
| Fs.ReloadAsWrittenLosesCurrentPair | libfs.c:349-358 | saved and loaded as written, line_count becomes 2 * line_count + 2, the number of words read, and the next save as written reads past the table |
| Fs.ModSmall | libfs.c:105-113 | a value below the modulus is its own remainder |
| Fs.Assoc | libfs.c:271-333 | concatenation regrouped |
| Fs.HoldsU16 | libfs.c:197-200 | where U16Bytes(x) stands, the reader gets x |
| Fs.HoldsU32 | libfs.c:202-210 | where U32Bytes(x) stands, the reader gets x |
| Fs.WordsBytesAt | libfs.c:282-288 | bytes 2i and 2i + 1 of a line table are the two bytes of its i-th word |
| Fs.WordAt | libfs.c:355-358 | the i-th word is read back from its two bytes |
| Fs.Output.constructor | libfs.c:100-132 | nothing is written yet |
| Fs.Output.WriteU8 | libfs.c:100-103 | appends the byte |
| Fs.Output.WriteU16 | libfs.c:105-108 | appends U16Bytes(x) |
| Fs.Output.WriteU32 | libfs.c:110-113 | appends U32Bytes(x) |
| Fs.Output.WriteDouble | libfs.c:115-118 | appends DoubleBytes(v) |
| Fs.Output.WriteString | libfs.c:120-132 | appends StringBytes(s) |
| Fs.Output.SaveCode | libfs.c:273-278 | appends the byte count and each code byte |
| Fs.Output.SaveLines | libfs.c:280-293 | corrected: with line information, the number of words in use (WordsInUse, the current pair's index plus two) and each of them; otherwise 0 |
| Fs.Output.SaveLinesAsWritten | libfs.c:280-293 | as written: with line information, line_count * 2 + 2 words of the buffer, after their count; otherwise 0 |
| Fs.Output.SaveWords | libfs.c:282-288 | appends the word count, then the first n words of the buffer in order |
| Fs.Output.SaveHead | libfs.c:271-295 | appends the chunk up to the constants, with the corrected line table |
| Fs.Output.SaveChunk | libfs.c:271-333 | appends ChunkBytes(c), whose line table is the corrected one |
| Fs.Output.SaveConstant | libfs.c:297-332 | one round of the constant loop appends ConstantBytes of that constant |
| Fs.Output.SaveValue | libfs.c:299-331 | the tag (0 for a number, the object type plus one otherwise), then the double, the string or the function |
| Fs.Output.SaveFunction | libfs.c:246-254 | appends FunctionBytes(f): the chunk (corrected line table), the name and the fields |
| Fs.Output.SaveTail | libfs.c:249-253 | appends the name and the fields after the chunk |
| Fs.Output.SaveModule | libfs.c:411-433 | appends ModuleBytes: the name, the private count, the stripped flag, unless stripped the private names of every occupied slot (corrected), and the main function |
| Fs.Output.SaveModuleHead | libfs.c:417-431 | appends the module up to the main function, with the private names of every occupied slot (corrected) |
| Fs.Output.SavePrivates | libfs.c:422-430 | corrected: appends the name and slot of each occupied entry of the whole table, in slot order |
| Fs.Output.SavePrivatesAsWritten | libfs.c:422-430 | as written: appends the name and slot of each occupied entry among the first private_count slots only |
| Fs.Output.SaveFile | state.c:855-862 | appends FileBytes: the magic number, the version, the module count, each module (corrected line tables and private names), and the end number |
| Fs.Output.SaveModules | state.c:858-861 | the module loop appends each module in order, as the corrected SaveModule writes it |
| Fs.ConstantTag | libfs.c:301-331 | the tag byte tells numbers, strings and functions apart |
| Fs.Loader.constructor | libfs.c:447 | the loader reads from the given file |
| Fs.Loader.LoadCode | libfs.c:341-348 | reads back exactly the code written, after its count |
| Fs.Loader.LoadLines | libfs.c:349-363 | corrected: reads back the words in use, and the current pair's index two below their count; a count of zero turns line information off |
| Fs.Loader.LoadLinesAsWritten | libfs.c:349-363 | as written: reads the words after their count and sets line_count to that count, so the current pair's index lies past the table read |
| Fs.Loader.LoadWords | libfs.c:355-358 | the loop reads the count words of the line table |
| Fs.Loader.LoadChunk | libfs.c:335-409 | reads back Reloaded(c), the saved chunk as the corrected load_chunk rebuilds it, and moves past its bytes |
| Fs.Loader.LoadChunkHead | libfs.c:340-371 | reads back the code, the line table (the corrected current-pair index) and the number of constants |
| Fs.Loader.LoadConstants | libfs.c:373-408 | the constant loop reads back each constant of the saved chunk |
| Fs.Loader.LoadConstantAt | libfs.c:373-408 | round i reads back constant i |
| Fs.Loader.LoadConstant | libfs.c:375-407 | the tag, then a double, a string or a function, read back as saved |
| Fs.Loader.LoadNumber | libfs.c:376-380 | the double after the tag |
| Fs.Loader.LoadString | libfs.c:386-391 | the string after the tag, empty for a length of zero |
| Fs.Loader.LoadFunction | libfs.c:256-269 | reads back ReloadedFunction(f): the chunk, with the corrected line table, and the fields save_function wrote |
| Fs.Loader.LoadTail | libfs.c:261-266 | reads back the name and the fields |
| Fs.Loader.LoadName | libfs.c:261 | the name written comes back |
| Fs.Loader.LoadModuleImage | libfs.c:463-478 | reads back ReloadedModule(m, stripped) and moves past its bytes, when the file holds private_count names or they were stripped |
| Fs.Loader.LoadModuleHead | libfs.c:463-477 | reads back the module up to the main function, when the file holds private_count names or they were stripped |
| Fs.Loader.LoadPrivatesPart | libfs.c:465-477 | the count, the flag and, unless stripped, the private names |
| Fs.Loader.LoadCountFlag | libfs.c:465-466 | the private count as a uint16_t, then the flag byte |
| Fs.Loader.LoadPrivates | libfs.c:469-477 | count rounds, each reading a name and its slot when the names were saved |
| Fs.Loader.PrivatesSnoc | libfs.c:469-477 | the first i + 1 private names are the first i and the i-th |
| Fs.Loader.ReadPrivate | libfs.c:469-477 | where the i-th private name stands |
| Fs.Loader.LoadPrivate | libfs.c:474-475 | the name, then the slot as a uint16_t |
| Fs.Loader.LoadFile | libfs.c:435-491 | a bad magic number or a too-new version is refused before any module is read; otherwise every module is rebuilt and registered in file order, and the first is returned unless the end number is wrong |
| Fs.Loader.LoadHead | libfs.c:448-458 | succeeds exactly for the magic number and a version up to LIT_BYTECODE_VERSION, with the matching error otherwise |
| Fs.Loader.LoadBody | libfs.c:459-490 | the modules registered are ReloadedModules, and the result is Outcome |
| Fs.Loader.LoadCounted | libfs.c:459-484 | the module count and the modules it counts |
| Fs.Loader.LoadEnd | libfs.c:485-490 | a file that does not end with the end number is refused |
| Fs.Loader.LoadModules | libfs.c:461-484 | the loop rebuilds the modules in file order |
| Fs.Loader.LoadModuleAt | libfs.c:461-484 | round i rebuilds module i |
| Fs.Loader.ModulesReadNext | libfs.c:461-484 | round i finds module i at the position, and reading it leaves the rounds after it |
| Fs.Outcome | libfs.c:448-490 | succeeds exactly for the right magic number, version and end number; then the first module registered, or none |
| Fs.Occupied | libfs.c:423-430 | the occupied entries, no more than the slots |
| Fs.ReloadedModules | libfs.c:461-484 | one rebuilt module per saved module |
| Fs.FramedFileAt | state.c:855-862 | the bytes SaveFile writes are laid out as the loader expects |
| Fs.FramedAt | state.c:855-862 | where the magic number, version, count, modules and end number stand |
| Fs.FileBytes | state.c:855-862 | the file starts with the magic number and the version and ends with the end number, seven bytes around the modules |
| Fs.ReloadedModulesSnoc | libfs.c:461-484 | the first i + 1 rebuilt modules are the first i and the i-th |
| Fs.PrivatesAppend | libfs.c:423-430 | the private-name bytes of two runs are those of each in turn |
| Fs.OccupiedAppend | libfs.c:423-430 | the occupied entries of two runs are those of each in turn |
| Fs.NoneOccupied | libfs.c:423-430 | no occupied entry exactly when every slot is empty |
| Fs.PrivatesAsWritten | libfs.c:423-428 | the names lit_save_module writes as written: the occupied slots among the first private_count, no more than private_count |
| Fs.PrivatesAsWrittenShort | libfs.c:423-476 | an empty slot below private_count leaves fewer names in the file than the private_count names the loader reads |
| Fs.SecondSlotDropped | libfs.c:423-428 | a name in the second slot of two, with private count 1, is written by the corrected save and dropped by the save as written |
| Fs.OccupiedShort | libfs.c:423-430 | a table with an empty slot has fewer occupied entries than slots |
| Gc.ReachableSteps | gcmem.c:114-322 | a root is reachable, and so is whatever a reachable object refers to |
| Gc.PathStaysIn | gcmem.c:314-322 | a chain of references starting in a closed set stays in it |
| Gc.ClosedHoldsReachable | gcmem.c:314-322 | a closed set holding the roots holds everything reachable from them |
| Gc.KeptWellFormed | gcmem.c:324-354 | keeping a closed set of objects keeps the object list well formed, and keeps exactly that set |
| Gc.PrefixStep | gcmem.c:152-312 | the references visited so far grow by one per step and end as all of them |
| Gc.Kept | gcmem.c:324-354 | the marked objects of the list, in list order: what the sweep keeps |
| Gc.KeptFilters | gcmem.c:324-354 | the sweep keeps exactly the marked objects, each as often as it was listed, and no unmarked one |
| Gc.KeptDistinct | gcmem.c:324-354 | a filter of a list without repeats has none |
| Gc.DistinctOnce | gcmem.c:324-354 | in a list without repeats every object occurs at most once |
| Gc.GarbageOfAll | mem.c:180-193 | sweeping with nothing marked frees every byte and keeps nothing |
| Gc.Heap.MarkObject | gcmem.c:82-104 | a null or marked object is left alone; any other is marked and pushed on the gray stack, whose capacity never shrinks |
| Gc.Heap.BlackenObject | gcmem.c:152-312 | every object the popped one refers to is marked; no mark is lost |
| Gc.Heap.MarkReference | gcmem.c:152-312 | one round of blackening marks the i-th reference |
| Gc.Heap.TraceReferences | gcmem.c:314-322 | the gray stack is emptied, and the marks are then closed under references |
| Gc.Heap.PopGray | gcmem.c:318-319 | the top of the gray stack is popped; it is the only marked object that may not be black |
| Gc.Heap.MarkRoots | gcmem.c:114-141 | the marks are exactly the roots, all gray |
| Gc.Heap.MarkRoot | gcmem.c:114-141 | one round marks the i-th root |
| Gc.Heap.Sweep | gcmem.c:324-354 | the list keeps exactly the marked objects in order, every unmarked object's bytes are given back, and every mark is cleared |
| Gc.Heap.CollectGarbage | gcmem.c:356-388 | with collection not allowed, 0 and nothing changes; otherwise exactly the objects reachable from the roots survive, unreachable interned strings are dropped, the bytes freed are returned, and next_gc is twice what is left |
| Gc.Heap.RemoveWhite | table.c:191-203 | the unmarked interned strings are dropped |
| Gc.Heap.Collect | gcmem.c:368-376 | mark, trace, remove white strings and sweep: the live objects survive and the garbage's bytes are given back |
| Gc.Heap.MarkLive | gcmem.c:368-369 | marking the roots and tracing leaves the marks exactly the live objects |
| Gc.Heap.MarkedIsLive | gcmem.c:314-322 | after tracing, the marks are exactly the objects reachable from the roots |
| Gc.Heap.MemRealloc | gcmem.c:42-68 | the accounting moves by new - old; only a growing request above next_gc with collection allowed collects; a new size of 0 gives NULL |
| Gc.Heap.FreeObjects | mem.c:180-193 | every object is freed whatever its mark, every byte is given back, and the gray stack's capacity drops to 0 |
| Gc.RootsStep | gcmem.c:114-141 | the roots marked so far grow by one root per round |
| Gen.FailIfNotSym | gen.rb:26-50 | corrected: at most one failure, and none exactly for a String that is a whole word |
| Gen.SymCheckNarrower | gen.rb:38-50 | every symbol the corrected check accepts, the check as written accepts too |
| Gen.OtherPassesAsWritten | gen.rb:38-50 | as written a key or value that is not a String counts no failure (fail_if_not_string's 1 is dropped); corrected it counts one |
| Gen.LinePassesAsWritten | gen.rb:40 | as written "ok\n-" passes, since `^\w+$` matches its first line; corrected it fails |
| Gen.ValuesInit | gen.rb:168-184 | the values of a table are those of all but its last pair, then the last one's |
| Gen.Put | gen.rb:181 | `names[k] = v`: an existing key keeps its place, a new one goes last, and (k, v) is in the result |
| Gen.PutMembers | gen.rb:181 | Put adds (k, v), keeps every entry for another key, and adds nothing else |
| Gen.RoundClean | gen.rb:174-184 | a round that counts no failure found none before and recorded the pair |
| Gen.Validate | gen.rb:174-184 | the validation loop counts Tallied's failures and records Tallied's names |
| Gen.CleanRecordsAll | gen.rb:177-183 | while nothing has failed, uniqnames holds every value so far |
| Gen.AllWordsSnoc | gen.rb:174-184 | a pair of words after a table of words leaves a table of words |
| Gen.DistinctSnoc | gen.rb:177-183 | a pair with a new value after a table without repeated values repeats none |
| Gen.InitLast | gen.rb:174-184 | a non-empty sequence is its init and its last element |
| Gen.ValidOnlyIf | gen.rb:174-184 | a table that passes the corrected check holds only words and no value twice |
| Gen.ValidIf | gen.rb:174-184 | a table of words with no value twice passes the corrected check |
| Gen.ValidIff | gen.rb:174-184 | with the corrected check a table passes exactly when every key and value is a whole word and no value repeats |
| Gen.DistinctKeysInit | gen.rb:174-184 | without its last pair a table of distinct keys keeps them distinct and lacks the last key |
| Gen.CleanNamesAreTable | gen.rb:174-184 | a table that passes, with distinct keys, is recorded whole and in order |
| Gen.RunLength | gen.rb:13 | the run of word characters a string starts with |
| Gen.RunOf | gen.rb:13 | a word followed by a non-word character or nothing is a run of its own length |
| Gen.CountRun | gen.rb:14 | counting over a word followed by a non-word character adds one exactly when it is the name |
| Gen.ReplaceFirst | gen.rb:17 | the substitution keeps a leading non-word character in front |
| Gen.NoMatchUnchanged | gen.rb:17 | where nothing matches, the substitution changes nothing |
| Gen.ReplaceRemoves | gen.rb:17 | after substituting a word by a different word, the first no longer occurs as a whole word |
| Gen.ReplaceKeepsAbsent | gen.rb:17 | substituting a word never creates a whole-word occurrence of another word |
| Gen.CountIffMatch | gen.rb:13-14 | a run counted is a match of `\bold\b`, and the other way round |
| Gen.ShiftMatch | gen.rb:13 | a match in the rest after a run or a non-word character is a match in the whole |
| Gen.UnshiftMatch | gen.rb:13 | a match at or after such a point is a match in the rest |
| Gen.RunCovers | gen.rb:13 | a prefix of word characters lies inside the run |
| Gen.MatchInRun | gen.rb:13 | inside a run, `\bold\b` matches only at its start, and only when the run is the name |
| Gen.DoGsub | gen.rb:8-24 | the loop gives Gsub's text and match count: each entry in turn, counting its matches, then substituting |
| Gen.NoMatchesNoChange | gen.rb:19-23 | with no match anywhere the data is unchanged, so not writing it loses nothing |
| Gen.KeysGone | gen.rb:12-18 | when no key is also a value, no key is left as a whole word |
| Gen.SwapIsSequential | gen.rb:12-18 | the substitutions are made one after the other: swapping a and b maps "a" back to "a" |
| Gen.NamesFromPairs | gen.rb:174-184 | every recorded entry comes from the table |
| Gen.NonStringKeyPassesAsWritten | gen.rb:38-50 | as written a table with a non-String key passes; the corrected check rejects it |
| Gen.OthersComparedByValue | gen.rb:174-184 | as written, two values that are not Strings count as a repeated target only when equal: 42 and 43 pass and keep both names, 42 twice fails once |
| Gen.Basename | gen.rb:194 | what follows the last '/' of the path, with no '/' in it |
| Gen.LeadingDots | gen.rb:195 | the dots a name starts with |
| Gen.LastDot | gen.rb:195 | the last dot in a range, or none |
| Gen.ExtnameShape | gen.rb:195-196 | the extension is empty or a dot and no other dot, past the leading dots, and stem plus extension is the name |
| Gen.BackupSharedByBasename | gen.rb:194-197 | the backup location depends only on the basename, so two files of one name in two directories share it |
| Gen.BasenameOf | gen.rb:194 | the basename of dir/name is name |
| Gen.LitExtname | gen.rb:195-196 | "lit.c" has stem "lit" and extension ".c" |
| Gen.BackupOfLit | gen.rb:197 | any file named lit.c backs up to "_backup/lit.backup_42.c" under process 42 |
| Gen.BackupExample | gen.rb:197 | src/lit.c and lib/lit.c share one backup |
| Gen.MissingFilesZero | gen.rb:161-166 | no file is counted missing exactly when every file argument is a regular file |
| Gen.ArgsPass | gen.rb:146-166 | the argument checks pass exactly when the table is a regular .yml/.yaml file and at least one file follows, each a regular file |
| Gen.CheckArguments | gen.rb:146-166 | the checks count ArgFailures |
| Gen.TableIgnoresArgument | gen.rb:169 | as written the table checked and the table read ("syms.yml") are different files: the arguments pass and the read fails |
| Gen.TableIsArgument | gen.rb:169 | corrected: once the arguments pass, the table read is the one checked |
| Gen.RewrittenNext | gen.rb:193-208 | the loop over i + 1 files is the loop over i, then one more round |
| Gen.Jobs | gen.rb:193-197 | each file with its backup location |
| Gen.StepEffects | gen.rb:193-208 | a round touches only the file and its backup, adds only the backup, leaves the original in the backup and the substituted text in the file |
| Gen.RewrittenGrows | gen.rb:193-208 | rewriting only adds files |
| Gen.RewrittenLeavesOthers | gen.rb:193-208 | a file that is neither a target nor a backup is unchanged |
| Gen.RewrittenFile | gen.rb:193-208 | each file ends up holding the substitution of its original contents |
| Gen.BackupHoldsOriginal | gen.rb:193-208 | with distinct backups apart from the files, each backup holds its file's original contents |
| Gen.ReplaceFile | gen.rb:194-207 | one round: copy to the backup location, then substitute |
| Gen.ReplaceFiles | gen.rb:193-208 | the loop's disk is Rewritten over the jobs |
| Gen.RunReplace | gen.rb:126-210 | with the corrected check: exit 1 with the disk unchanged exactly when a check failed; otherwise exit 0, the table is a Hash of words with no value repeated, and every file is rewritten with a backup |
| Gen.Downcase | gen.rb:215 | the same length as the verb |
| Gen.LacksNoLine | gen.rb:40 | a string without c has no line starting with c |
| Gen.VerbsAgree | gen.rb:213-227 | every verb the intended dispatch accepts selects the same command as written |
| Gen.PrefixVerbs | gen.rb:216-218 | as written "grep" selects generate and "Remove" selects replace, because the patterns are only anchored at the start |
| Gen.StripStart | gen.rb:60 | lstrip: a suffix with nothing blank in front |
| Gen.StripEnd | gen.rb:60 | rstrip: a prefix with nothing blank at the end |
| Gen.Strip | gen.rb:60 | a piece of the string with nothing blank at either end |
| Gen.StripIdempotent | gen.rb:60 | stripping twice is stripping once |
| Gen.SpaceRun | gen.rb:62-63 | the run of `\s` characters a string starts with |
| Gen.Find | gen.rb:62 | the first occurrence at or after lo, and none before it |
| Gen.FindLast | gen.rb:62 | the last occurrence within the bounds, and none after it |
| Gen.Squeeze | gen.rb:63 | every run of spaces becomes one space, so it never grows |
| Gen.SqueezedCons | gen.rb:63 | a character in front of a squeezed string keeps it squeezed unless it makes two spaces |
| Gen.SqueezeSqueezed | gen.rb:63 | Squeeze leaves single plain spaces only, and keeps a leading non-space |
| Gen.DropLineComment | gen.rb:74 | everything from the first "//" goes, so none is left |
| Gen.SplitJoin | gen.rb:58 | splitting at the newlines and joining back gives the text, and no field holds a newline |
| Gen.Records | gen.rb:59-71 | one record per line |
| Gen.CleanValues | gen.rb:73-74 | each value cleaned, keys kept |
| Gen.RecordLine | gen.rb:60-70 | one round: strip, compute rawline, apply the filters |
| Gen.CollectNext | gen.rb:59-71 | one more line puts its record, if any |
| Gen.RejectNext | gen.rb:75 | one more entry is kept exactly when its value is not empty |
| Gen.CollectLines | gen.rb:59-71 | the loop over the lines builds Collect of the records |
| Gen.CleanEntries | gen.rb:73-75 | the map and reject steps |
| Gen.RunCproto | gen.rb:53-77 | runcproto on cproto's output gives Prototypes |
| Gen.PutDistinct | gen.rb:70 | Put keeps the keys distinct |
| Gen.CollectSound | gen.rb:59-71 | no two entries share a key, and each is a record |
| Gen.LastRecordWins | gen.rb:70 | the value kept for a key is the last record with that key |
| Gen.RejectSound | gen.rb:75 | exactly the entries with a value are kept, keys staying distinct |
| Gen.CleanKeepsDistinct | gen.rb:73-74 | the map step keeps keys distinct |
| Gen.CleanedFrom | gen.rb:73-74 | each entry after the map step is one before it with its value cleaned |
| Gen.CleanedSound | gen.rb:73-75 | after map and reject: distinct keys, each entry a record with its value cleaned and not empty |
| Gen.PrototypesSound | gen.rb:53-77 | the prototypes have distinct keys and each is the record of a kept line, cleaned, not empty |
| Gen.LastEntryKept | gen.rb:70-75 | the last record of a key gives its prototype unless its cleaned value is empty |
| Gen.LaterRecordsDiffer | gen.rb:59-71 | a kept line whose key no later kept line has gives the last record of that key |
| Gen.LastLineWins | gen.rb:53-77 | such a line gives the prototype for its key unless its cleaned value is empty |
| Gen.RemoveAll | gen.rb:109 | every occurrence goes, so it never grows |
| Gen.RemoveAbsent | gen.rb:109 | with no occurrence nothing changes |
| Gen.NewNamePrefixed | gen.rb:109 | the new name starts with the prefix and is no longer than prefix and name |
| Gen.NewNameKeeps | gen.rb:109 | a name without "internal_" only gains the prefix |
| Gen.NewNameDrops | gen.rb:109 | "lit_" and "internal_gc" give "lit_gc" |
| Gen.RenameAll | gen.rb:108-117 | one entry per prototype, in order, with its new name |
| Gen.RunGenerate | gen.rb:83-124 | one entry per prototype of cproto's output, in order, with its new name |
| LibFiber.Said | libfiber.c:140-143 | the message of the runtime error: the fixed text exactly without an argument, the first argument as a string exactly with one |
| LibFiber.Handed | libfiber.c:151 | null exactly without an argument; otherwise the string object of the first argument |
| LibFiber.Construct | libfiber.c:78-93 | no argument or a non-function is the error "Fiber constructor expects a function as its argument"; otherwise a fresh fiber for the function in the running fiber's module, whose parent is the running fiber |
| LibFiber.Leave | libfiber.c:138-156 | without a parent the runtime error with the fixed text or the argument; otherwise the parent becomes the running fiber, its stack drops the callee's arguments, the top slot takes the handed value, and the receiver slot becomes null |
| LibFiber.Yield | libfiber.c:138-156 | Leave with "Fiber was yielded" |
| LibFiber.Yeet | libfiber.c:159-177 | Leave with "Fiber was yeeted" |
| LibFiber.Abort | libfiber.c:180-187 | always the runtime error "Fiber was aborted" or the argument as a string; the receiver slot becomes null and nothing else on the stack changes |
| LibFiber.ResumeThenYield | libfiber.c:123-156 | a fiber that run or try resumed hands control back, on yield, to the fiber that resumed it, whose stack then ends with the handed value |
| LitParsers.LitParser.constructor | ccparser.c:256-266 | a parser over the scanner's tokens, with no error and not panicking |
| LitParsers.LitParser.Restore | ccparser.c:1721-1750 | the parser takes the state a parsing function returned (the longjmp back to the statement loop) |
| LitParsers.LitParser.Advance | ccparser.c:306-319 | the parser ends in the state Parser.Advance computes: the current token becomes the previous one, and error tokens are reported and skipped |
| LitParsers.LitParser.Scan | ccparser.c:310-318 | the loop reports every error token it scans and stops at the first other one, as ScanFrom computes |
| LitParsers.LitParser.Raise | ccparser.c:273-283 | as Parser.Raise: nothing while panicking; otherwise the error is reported, had_error is set and the parser synchronises |
| LitParsers.LitParser.Sync | ccparser.c:1672-1704 | as Parser.Sync: panic mode is cleared and tokens are skipped up to the EOF, a newline before or a statement keyword unwinding to the statement loop |
| LitParsers.LitParser.Match | ccparser.c:334-342 | the current token is consumed exactly when it has the type, and the answer says so |
| LitParsers.LitParser.MatchNewlines | ccparser.c:344-354 | as Parser.MatchNewlines: every NEW_LINE token is consumed, and the answer is false |
| LitParsers.LitParser.Consume | ccparser.c:428-445 | as Parser.Consume: a token of the type is consumed; otherwise the expectation-unmet error names what was expected and the previous token ("new line" for a newline) |
| LitParsers.LitParser.ParseParameters | ccparser.c:529-563 | as Parser.ParseParameters: parameters up to the `)`, `...` ending the list, and a parameter without a default after one with a default reported |
| LitParsers.LitParser.ParameterStep | ccparser.c:536-561 | one round of the loop: `...`, or a name, its default value and the `,` after it |
| LitParsers.LitParser.ParameterRest | ccparser.c:545-561 | the default value and the `,` after a parameter's name |
| LitParsers.LitParser.NextParameter | ccparser.c:557-560 | without a `,` the list ends |
| LitParsers.LitParser.Parameter | ccparser.c:544-556 | the parameter named by the token just consumed, with its default value |
| LitParsers.LitParser.Default | ccparser.c:547-555 | the default after `=`, or the centred-default error after an earlier default |
| LitParsers.LitParser.ParameterList | ccparser.c:1474-1479 | as Parser.ParameterList: the parameters, with more than 255 reported |
| LitParsers.LitParser.ParseCall | ccparser.c:670-701 | as Parser.RuleCall: the arguments, more than 255 reported, and the `)` |
| LitParsers.LitParser.Arguments | ccparser.c:677-693 | as Parser.CallArgs: expressions separated by commas up to the `)`; `...` followed by a comma ends the list |
| LitParsers.LitParser.CloseCall | ccparser.c:695-700 | more than 255 arguments are reported, then the `)` is consumed |
| Parser.SetupRules | ccparser.c:66-126 | the table as written: the compound rule exactly for the compound-assignment tokens, and EOF with no rule and precedence NONE |
| Parser.CorrectedRules | ccparser.c:66-126 | corrected: the same table except `...` and `~` at NONE and `\|\|` at OR; compound rules unchanged |
| Parser.ScanFrom | ccparser.c:310-318 | the loop only moves forward, keeps every error reported, and on return stands on a token that is not an error |
| Parser.Advance | ccparser.c:306-319 | the previous token becomes the current one, the parser moves past it, errors only accumulate, and a normal return stands on a token that is not an error |
| Parser.Raise | ccparser.c:273-283 | while panicking nothing changes; otherwise the error is added, had_error is set and panic mode ends |
| Parser.Sync | ccparser.c:1672-1704 | panic mode is cleared; a normal return stands on the EOF, anything else unwinds |
| Parser.SyncLoop | ccparser.c:1675-1703 | the loop returns normally only at the EOF |
| Parser.Match | ccparser.c:334-342 | the answer is true exactly when the current token has the type, and then the parser moved past it |
| Parser.MatchNewlines | ccparser.c:344-354 | a normal return stands on a token that is not a newline |
| Parser.Consume | ccparser.c:428-445 | a token of the type is advanced over; any other raises the expectation-unmet error |
| Parser.ParseExpression | ccparser.c:1242-1246 | the parser stays well formed and never moves backward |
| Parser.ParsePrecedence | ccparser.c:470-515 | the parser stays well formed and never moves backward |
| Parser.InfixLoop | ccparser.c:502-507 | a normal return stands on a token whose precedence is below the level |
| Parser.Prefix | ccparser.c:483-500 | a normal return stands past the token the rule was called on |
| Parser.RuleString | ccparser.c:893-903 | a normal return stands past the string token |
| Parser.RuleVar | ccparser.c:959-1005 | a normal return stands past the variable token |
| Parser.RuleUnary | ccparser.c:703-713 | a normal return stands past the operator |
| Parser.RuleGrouping | ccparser.c:568-668 | a normal return stands past the `(` |
| Parser.GroupingBody | ccparser.c:568-668 | the parser never moves backward |
| Parser.Infix | ccparser.c:504-506 | a normal return stands past the operator |
| Parser.RuleBinary | ccparser.c:715-738 | a normal return stands past the operator |
| Parser.BinaryRight | ccparser.c:715-738 | the parser never moves backward |
| Parser.RuleLogical | ccparser.c:740-768 | a normal return stands past the operator |
| Parser.RuleCompound | ccparser.c:838-860 | a normal return stands past the operator |
| Parser.RuleCall | ccparser.c:670-701 | a normal return stands past the `(` |
| Parser.CallEnd | ccparser.c:695-700 | the parser never moves backward |
| Parser.CallArgs | ccparser.c:677-693 | the parser never moves backward |
| Parser.ParseParameters | ccparser.c:529-563 | the parser never moves backward |
| Parser.ParameterTail | ccparser.c:545-561 | the parser never moves backward |
| Parser.AfterParameter | ccparser.c:557-560 | the parser never moves backward |
| Parser.Parameter | ccparser.c:544-556 | the parser never moves backward |
| Parser.DefaultValue | ccparser.c:547-555 | the parser never moves backward |
| Parser.ParameterList | ccparser.c:1474-1479 | the parser stays well formed |
| ParserProps.EnteredHasInfix | ccparser.c:502-507 | with the corrected table every token the infix loop enters has an infix rule |
| ParserProps.EnteredWithoutInfix | ccparser.c:80-117 | as written `...` and `~` are entered by the infix loop although they have no infix rule |
| ParserProps.TablesStandard | ccparser.c:66-126 | both tables give the ordinary binary operators their rules and precedences |
| ParserProps.FoldLast | ccparser.c:502-507 | in a left fold the last operator is the root |
| ParserProps.RestHead | ccparser.c:715-738 | the next operator ends an operand parsed one level above |
| ParserProps.RestEnd | ccparser.c:502-507 | the token after the last pair ends the expression |
| ParserProps.AdvanceClean | ccparser.c:306-319 | an advance onto a token that is not an error changes only the position |
| ParserProps.OperandPrefix | ccparser.c:483-500 | the prefix rule of a simple operand returns its expression |
| ParserProps.VariablePrefix | ccparser.c:959-1005 | a variable neither subscripted nor assigned parses as itself |
| ParserProps.NoNewlines | ccparser.c:344-354 | nothing is skipped before a token that is not a newline |
| ParserProps.PrecedenceAfter | ccparser.c:470-515 | parseprecedence is its prefix rule, then its infix loop |
| ParserProps.InfixTurn | ccparser.c:502-507 | one turn of the infix loop |
| ParserProps.BinaryGo | ccparser.c:715-738 | the binary rule builds the binary expression with its right operand |
| ParserProps.LoopStops | ccparser.c:502-507 | the infix loop stops at once before a token of lower precedence |
| ParserProps.OperandThen | ccparser.c:470-515 | parseprecedence over a simple operand is the infix loop after it |
| ParserProps.OperandAlone | ccparser.c:470-515 | a simple operand followed by a token that ends it parses as itself |
| ParserProps.ChainStep | ccparser.c:502-507 | one operator of a chain and its operand are one turn |
| ParserProps.AfterStep | ccparser.c:502-507 | the state after the first pair, then the others |
| ParserProps.ChainMore | ccparser.c:502-507 | the first pair, then the rest of the chain |
| ParserProps.AfterOperand | ccparser.c:502-507 | the state after an operand and m pairs |
| ParserProps.ChainLoop | ccparser.c:502-507 | the infix loop over a chain of one precedence builds the left fold |
| ParserProps.ExpressionStart | ccparser.c:1242-1246 | parseexpression before a token that is not a newline is parseprecedence at ASSIGNMENT |
| ParserProps.ChainEnds | ccparser.c:502-507 | the tokens around a chain that its parse looks at |
| ParserProps.ChainTail | ccparser.c:502-507 | the infix loop after an operand over a chain at the assignment level |
| ParserProps.ChainPrecedence | ccparser.c:470-515 | parseprecedence over an operand and a chain |
| ParserProps.ChainExpression | ccparser.c:1242-1246 | parseexpression over an operand and a chain |
| ParserProps.LeftAssociative | ccparser.c:715-738 | binary operators of one precedence associate to the left: `x0 op1 x1 ... opm xm` parses as the left fold |
| ParserProps.LoopNullRule | ccparser.c:502-507 | as written, a token the infix loop enters without an infix rule calls a NULL rule |
| ParserProps.OperandNullRule | ccparser.c:502-507 | a simple operand, then such a token: the parse calls a NULL rule |
| ParserProps.LogicalGo | ccparser.c:740-758 | and/or build the logical expression with the right operand at their level |
| ParserProps.LogicalTurn | ccparser.c:740-758 | a logical operator and an operand are one turn of the loop |
| ParserProps.InsideFacts | ccparser.c:111-112 | the facts about `a && b \|\| c` its parse needs, as written |
| ParserProps.OrInsideAnd | ccparser.c:112 | as written `b \|\| c` is the right operand of `&&` |
| ParserProps.OuterFacts | ccparser.c:502-507 | the first and last turns over `a && b \|\| c` |
| ParserProps.AndOverOr | ccparser.c:502-507 | the infix loop over the whole expression, as written |
| ParserProps.TopFacts | ccparser.c:1242-1246 | the facts about `a` parseexpression needs |
| ParserProps.LastFacts | ccparser.c:511 | the token after `c` is not `=` |
| ParserProps.OrBindsTighterAsWritten | ccparser.c:111-112 | as written `a && b \|\| c` parses as `a && (b \|\| c)`, because `\|\|` has the precedence of `&&` |
| ParserProps.LooserFacts | ccparser.c:740-758 | the two turns over `a && b \|\| c` with `\|\|` below `&&` |
| ParserProps.OrOverAnd | ccparser.c:502-507 | the infix loop over the whole expression with `\|\|` below `&&` |
| ParserProps.OrBindsLooser | ccparser.c:112 | corrected, `a && b \|\| c` parses as `(a && b) \|\| c` |
| ParserProps.SetupAndOr | ccparser.c:111-112 | `&&` and `\|\|` both at precedence AND as written |
| ParserProps.CorrectedAndOr | ccparser.c:112 | `\|\|` at OR in the corrected table |
| ParserProps.SetupLogical | ccparser.c:112 | as written `\|\|` has the precedence of `&&` |
| ParserProps.CorrectedLogical | ccparser.c:112 | the corrected table puts `\|\|` below `&&` |
| ParserProps.MissingPrefix | ccparser.c:484-500 | a token without a prefix rule where an expression starts reports EXPECTED_EXPRESSION |
| ParserProps.CompoundApplies | ccparser.c:770-836 | every compound operator converts to a binary operator |
| ParserProps.CompoundPrecedence | ccparser.c:100-109 | every compound operator is at COMPOUND in both tables |
| ParserProps.IncrementAddsOne | ccparser.c:838-860 | `x++` and `x--` become `x = x + 1` and `x = x - 1`, consuming nothing more |
| ParserProps.CompoundAssigns | ccparser.c:838-860 | `x op= e` becomes `x = x op e`, the right operand one level above |
| ParserProps.NotIs | ccparser.c:715-738 | `a ! is B` is the `is` test, negated |
| ParserProps.BangWithoutIs | ccparser.c:715-738 | a `!` in infix position without `is` reports the error |
| ParserProps.SyncStops | ccparser.c:1672-1704 | sync stops before a statement keyword without advancing |
| ParserProps.TooManyArguments | ccparser.c:695-698 | more than 255 arguments are reported with their count |
| ParserProps.CallBuilt | ccparser.c:670-701 | up to 255 arguments the call is built once its `)` is consumed |
| ParserProps.SpreadEndsArguments | ccparser.c:684-692 | a `...` argument followed by a comma ends the list |
| ParserProps.VarargEndsParameters | ccparser.c:538-542 | `...` is the last parameter whatever follows |
| ParserProps.DefaultCentred | ccparser.c:551-554 | a parameter without a default after one with a default is DEFAULT_ARG_CENTRED |
| ParserProps.DefaultAllowed | ccparser.c:547-555 | no defaults, or all with defaults, raise nothing |
| ParserProps.TooManyParameters | ccparser.c:1474-1479 | more than 255 parameters are reported with their count, and the list is kept |
| Opt.LevelFlags | ccopt.c:960-1004 | the table a level selects has one flag per optimization, each on exactly when the level turns it on |
| Opt.LevelsGrow | ccopt.c:960-1004 | NONE turns nothing on, and REPL, DEBUG, RELEASE and EXTREME each turn on at least what the one before does |
| Opt.LevelEnablesSome | ccopt.c:960-1004 | a level's table has a flag on exactly when the level is not NONE |
| Opt.Flags.constructor | ccopt.c:56-59 | the program starts with nothing set up and every flag off |
| Opt.Flags.SetAllOptEnabled | ccopt.c:949-958 | every flag, and the any-enabled summary, become the given value, and the table counts as set up |
| Opt.Flags.SetOptEnabled | ccopt.c:924-947 | the DEBUG table is set up first if nothing is set up yet, then exactly the one flag changes |
| Opt.Flags.SetFlag | ccopt.c:931-946 | exactly the one flag changes |
| Opt.Flags.SetupStates | ccopt.c:910-913 | the table becomes the DEBUG level's |
| Opt.Flags.SetOptLevel | ccopt.c:960-1004 | a real level installs exactly its table; the TOTAL marker leaves everything as it was |
| Opt.Flags.IsOptEnabled | ccopt.c:915-922 | the answer is the flag, after setting up the DEBUG table if nothing was set up |
| Opt.LastNamed | ccopt.c:144-159 | the index found holds the name and nothing after it does; none is found only when no variable has the name |
| Opt.AddedHides | ccopt.c:136-159 | a newly added variable hides every earlier one of its name, and no other name sees it |
| Opt.IsEmptyExprCases | ccopt.c:161-164 | a present statement that is not a block is not empty, and a block is empty exactly when it has no statements |
| Opt.Optimizer.constructor | ccopt.c:103-109 | depth -1, no variables, new variables not marked used |
| Opt.Optimizer.BeginScope | ccopt.c:111-114 | the depth grows by one and nothing else changes |
| Opt.Optimizer.AddVar | ccopt.c:136-142 | the variable is appended at the current depth and is what resolving its name finds |
| Opt.Optimizer.ResolveVar | ccopt.c:144-159 | the search from the newest variable back finds the last one of the name, or none |
| Opt.Optimizer.EndScope | ccopt.c:116-134 | the depth drops by one; the variables deeper than it are popped, and with the unused-variable optimization on the declarations of those never used are cleared |
| Opt.Optimizer.PopScope | ccopt.c:122-133 | the loop pops exactly the variables deeper than the depth, collecting the declarations of the unused ones when asked |
| Opt.Visible | ccopt.c:122-133 | what is left after popping is no longer than the list |
| Opt.NestedPrefix | ccopt.c:136-142 | a prefix of a list added in scope order is still in scope order |
| Opt.RemovedStep | ccopt.c:124-131 | popping one more variable adds its declaration exactly when it was never used |
| Opt.VisibleCut | ccopt.c:122-133 | where end_scope's loop stops is where the kept variables end |
| Opt.UnusedCut | ccopt.c:122-133 | the declarations cleared are those of the popped variables never used |
| Opt.VisibleFilters | ccopt.c:116-134 | with variables in scope order, end_scope keeps exactly those not deeper than the new depth, as a prefix in order |
| Opt.OptAst | ccopt.c:893-908 | the early return leaves the statements as they were |
| Prepr.Override | ccprepr.c:25-35 | the text keeps its length; exactly the characters of the range other than newlines become spaces |
| Prepr.BlankedTrans | ccprepr.c:25-35 | blanking twice is blanking |
| Prepr.BlankedKeepsNewlines | ccprepr.c:29-32 | blanking keeps every newline where it was and adds none |
| Prepr.Onward | ccprepr.c:63-210 | in NUL-terminated text every character before the NUL has a successor |
| Prepr.LineCommentEnd | ccprepr.c:70-75 | the line-comment loop ends just past the first newline or NUL |
| Prepr.BlockCommentEndAsWritten | ccprepr.c:83-88 | as written the loop ends after the first star or NUL, or before the first slash, whichever comes first |
| Prepr.BlockCommentEnd | ccprepr.c:80-91 | corrected: the loop ends just past the first star-slash, or after the NUL |
| Prepr.LineCommentStep | ccprepr.c:68-79 | the pass keeps the text's length and, going on, moves forward |
| Prepr.BlockCommentStep | ccprepr.c:80-92 | the pass keeps the text's length and, going on, moves forward |
| Prepr.TextStep | ccprepr.c:194-209 | one character outside a directive: a directive starts exactly at a '#' while on a new line; a newline sets on_new_line, a blank or '#' keeps it, anything else clears it; nothing else changes |
| Prepr.MacroStep | ccprepr.c:93-193 | the pass keeps the text's length and, going on, moves forward |
| Prepr.ArgEnd | ccprepr.c:97-133 | the pass keeps the text's length and, going on, moves forward |
| Prepr.DefineEnd | ccprepr.c:100-114 | the pass keeps the text's length and, going on, moves forward |
| Prepr.IfdefEnd | ccprepr.c:115-128 | the pass keeps the text's length and, going on, moves forward |
| Prepr.WordEnd | ccprepr.c:134-191 | the pass keeps the text's length and, going on, moves forward |
| Prepr.EndifStep | ccprepr.c:146-166 | the pass keeps the text's length and, going on, moves forward |
| Prepr.ElseStep | ccprepr.c:167-182 | the pass keeps the text's length and, going on, moves forward |
| Prepr.CommentStep | ccprepr.c:67-92 | the pass keeps the text's length and, going on, moves forward |
| Prepr.Step | ccprepr.c:63-210 | one pass keeps the text's length and, going on, moves forward |
| Prepr.Finish | ccprepr.c:211-217 | success exactly when no directive is unfinished, no branch is open and the depth is not positive; failure is UNCLOSED_MACRO with the open-if list kept; success empties it |
| Prepr.OverridesBlank | ccprepr.c:25-35 | override only blanks |
| Prepr.ArgEndBlanks | ccprepr.c:97-133 | the end of an argument only blanks |
| Prepr.EndifBlanks | ccprepr.c:146-166 | `#endif` only blanks |
| Prepr.ElseBlanks | ccprepr.c:167-182 | `#else` only blanks |
| Prepr.WordEndBlanks | ccprepr.c:134-191 | the end of a directive's name only blanks |
| Prepr.MacroBlanks | ccprepr.c:93-193 | a pass inside a directive only blanks |
| Prepr.StepBlanks | ccprepr.c:63-210 | a pass only blanks |
| Prepr.RunBlanks | ccprepr.c:37-218 | lit_preprocess edits in place: the text keeps its length and its newlines, and only gains spaces |
| Prepr.ArgEndBalanced | ccprepr.c:97-133 | the end of an argument stays in bounds and keeps the open-if list matched to depth and ignore_depth |
| Prepr.EndifBalanced | ccprepr.c:146-166 | corrected, `#endif` stays in bounds and keeps the balance |
| Prepr.ElseBalanced | ccprepr.c:167-182 | corrected, `#else` stays in bounds and keeps the balance |
| Prepr.WordEndBalanced | ccprepr.c:134-191 | corrected, the end of a name stays in bounds and keeps the balance |
| Prepr.MacroBalanced | ccprepr.c:93-193 | corrected, a pass inside a directive stays in bounds and keeps the balance |
| Prepr.CommentBalanced | ccprepr.c:67-92 | corrected, a comment pass stays in bounds and keeps the balance |
| Prepr.TextBalanced | ccprepr.c:194-209 | a character outside a directive keeps the balance |
| Prepr.StepComment | ccprepr.c:67-92 | a pass at `//` or a slash and a star runs that comment's loop |
| Prepr.StepMacro | ccprepr.c:93-193 | a pass inside a directive, not at a comment, is the directive step |
| Prepr.StepText | ccprepr.c:194-210 | a pass outside a directive, not at a comment, is the text step |
| Prepr.StepBalanced | ccprepr.c:63-210 | a corrected pass never indexes outside an object and keeps the balance |
| Prepr.RunDefined | ccprepr.c:37-218 | the corrected loop always reaches a verdict |
| Prepr.WordRun | ccprepr.c:95 | word characters inside a directive are read one per pass and change nothing else |
| Prepr.WordStep | ccprepr.c:95 | one word character inside a directive only moves on |
| Prepr.NameRun | ccprepr.c:194-209 | a '#' with only blanks before it on its line, then letters: the passes read the directive's name |
| Prepr.AtWordEnd | ccprepr.c:134-191 | the separator after the name is handled by the end-of-name step |
| Prepr.UnknownDirective | ccprepr.c:184-190 | a directive named none of the six fails with UNKNOWN_MACRO and its name, the text as it was |
| Prepr.ArgNameLetters | ccprepr.c:95 | the names of the directives with an argument are letters |
| Prepr.ArgWordEnd | ccprepr.c:136-141 | a name that takes an argument, ended by a separator, starts the argument after it |
| Prepr.StepArgEnd | ccprepr.c:95-133 | inside an argument a separator ends it |
| Prepr.AtArgEnd | ccprepr.c:95-141 | `#w name`: the passes read up to the end of the name |
| Prepr.ArgStart | ccprepr.c:136-141 | `#w` and a separator: the argument starts after the separator |
| Prepr.DirectiveRun | ccprepr.c:95-133 | `#w name`: the run goes on from the pass at the end of the argument |
| Prepr.DefineEndUpdates | ccprepr.c:100-114 | the end of a `#define` or `#undef` argument adds or removes the name unless ignoring |
| Prepr.ArgEndDefines | ccprepr.c:99-133 | ArgEnd at a `#define` or `#undef` argument updates the set and blanks the directive |
| Prepr.IfdefEndBlanks | ccprepr.c:129-132 | the end of an `#ifdef` or `#ifndef` argument blanks the directive |
| Prepr.IfdefEndOpens | ccprepr.c:115-128 | `#ifdef`/`#ifndef` increments depth and, outside an ignored branch, pushes the branch and starts ignoring it when the test fails |
| Prepr.ArgEndOpens | ccprepr.c:97-133 | ArgEnd at an `#ifdef` or `#ifndef` argument opens the branch and blanks the directive |
| Prepr.DefineDirective | ccprepr.c:95-133 | `#define name` adds the name and `#undef name` removes it unless inside an ignored branch, the directive is blanked, and the run goes on after it |
| Prepr.IfdefDirective | ccprepr.c:115-133 | `#ifdef name` and `#ifndef name` open a branch, ignored when the test fails, the directive is blanked, and the run goes on after it |
| Prepr.WordEndElse | ccprepr.c:142-182 | `#else` read as a name selects the else step |
| Prepr.ElseStepUnopened | ccprepr.c:167-181 | `#else` outside an ignored branch with no branch open writes below the list as written, and fails corrected |
| Prepr.ElseWithoutBranch | ccprepr.c:179 | a stray `#else`: as written the loop writes index count-1 of an empty list, so the result is undefined; corrected it is UNCLOSED_MACRO |
| Prepr.LineCommentRun | ccprepr.c:68-79 | a line comment is skipped in one pass and ends the directive; as written in_arg stays set |
| Prepr.BlockCommentRun | ccprepr.c:80-92 | corrected, a block comment runs to its first star-slash and the pass goes on after the slash |
| Prepr.BlockCommentEndAsWrittenAt | ccprepr.c:84-88 | as written the loop stops after the first star when no earlier character is followed by a slash |
| Prepr.BlockCommentRunAsWritten | ccprepr.c:80-92 | as written a block comment ends after its first star |
| Prepr.ArgumentDefines | ccprepr.c:95-114 | a separator ends a `#define` argument wherever the argument started |
| Prepr.MacroDefines | ccprepr.c:99-114 | outside ignored branches the text from arg_start is added to the defined set |
| Prepr.StrayElse | ccprepr.c:179 | `#else` alone: undefined as written, UNCLOSED_MACRO corrected |
| Prepr.StarredCommentAsWritten | ccprepr.c:88 | as written a comment ends at its first star, so `#x` inside it is UNKNOWN_MACRO |
| Prepr.StarredCommentCorrected | ccprepr.c:80-92 | corrected, the same text has no directive and succeeds unchanged |
| Prepr.StarInComment | ccprepr.c:88 | a star inside a block comment: UNKNOWN_MACRO as written, success corrected |
| Prepr.CommentedUndefHead | ccprepr.c:68-79 | `#undef` then a comment: as written in_arg stays set past the line |
| Prepr.CommentedUndefMiddle | ccprepr.c:95-133 | as written the next line's `#define` and its separator end the `#undef` argument |
| Prepr.CommentedUndefTail | ccprepr.c:194-210 | the rest of the text holds no directive |
| Prepr.CommentedUndefCorrected | ccprepr.c:37-218 | corrected, the comment ends the `#undef` and `#define A` defines A |
| Prepr.CommentInDirective | ccprepr.c:76-111 | as written a comment in place of a `#undef` argument makes the next line part of it and `//\n#define` is defined; corrected, A is |
| Prepr.UnclosedIfdef | ccprepr.c:211-215 | a branch left open is UNCLOSED_MACRO and its position stays on the open-if list |
| Prepr.StaleOpenIfs | ccprepr.c:211-216 | the open-if list is emptied only on success, so after an unclosed `#ifdef` an empty text fails too |
| Prepr.WordEndTakes | ccprepr.c:136-141 | a name that takes an argument starts it after the separator |
| Prepr.WordEndCloses | ccprepr.c:142-146 | `#else` and `#endif` are told apart by their second letter |
| Prepr.WordEndUnknown | ccprepr.c:184-190 | any other name is UNKNOWN_MACRO with the name |
| Prepr.BlockCommentEndAt | ccprepr.c:80-92 | the corrected comment ends at the first close at or after its start |
| Prepr.Preprocessor.constructor | ccprepr.c:6-12 | an empty defined table and an empty open-if list |
| Prepr.Preprocessor.AddDefinition | ccprepr.c:20-23 | the name joins the defined set |
| Prepr.Preprocessor.Blank | ccprepr.c:25-35 | the array becomes Override of what it was |
| Prepr.Preprocessor.LineCommentLoop | ccprepr.c:71-75 | the loop ends where LineCommentEnd says |
| Prepr.Preprocessor.BlockCommentLoop | ccprepr.c:84-88 | the corrected loop ends where BlockCommentEnd says |
| Prepr.Preprocessor.CommentPass | ccprepr.c:67-92 | the pass is CommentStep |
| Prepr.Preprocessor.LineCommentPass | ccprepr.c:68-79 | the pass is LineCommentStep |
| Prepr.Preprocessor.BlockCommentPass | ccprepr.c:80-92 | the pass is BlockCommentStep |
| Prepr.Preprocessor.ArgumentEnd | ccprepr.c:97-133 | the pass is ArgEnd |
| Prepr.Preprocessor.DefinePass | ccprepr.c:100-114 | the pass is DefineEnd |
| Prepr.Preprocessor.IfdefPass | ccprepr.c:115-128 | the pass is IfdefEnd |
| Prepr.Preprocessor.EndifPass | ccprepr.c:146-166 | the pass is EndifStep |
| Prepr.Preprocessor.EndIgnored | ccprepr.c:149-159 | the pass is EndifStep inside an ignored branch |
| Prepr.Preprocessor.EndTaken | ccprepr.c:160-165 | the pass is EndifStep outside ignored branches |
| Prepr.Preprocessor.ElsePass | ccprepr.c:167-182 | the pass is ElseStep |
| Prepr.Preprocessor.NameEnd | ccprepr.c:134-191 | the pass is WordEnd |
| Prepr.Preprocessor.ClosePass | ccprepr.c:142-183 | the pass is WordEnd at `#else` or `#endif` |
| Prepr.Preprocessor.Pass | ccprepr.c:63-210 | the pass is Step |
| Prepr.Preprocessor.Preprocess | ccprepr.c:37-218 | the text, the defined set and the open-if list end as the corrected Run says, and true is returned exactly when no error is reported |
| Scan.Successor | ccscan.c:71-80 | in NUL-terminated text every character other than the NUL has a successor |
| Scan.LineEnd | ccscan.c:149-154 | a line comment stops at the first newline or NUL |
| Scan.BlockEnd | ccscan.c:163-170 | the comment loop stops at the first star-slash or NUL, counting the newlines before it |
| Scan.BlockResume | ccscan.c:171-173 | corrected: the scan resumes past the closing star-slash, or stays on the NUL |
| Scan.UnterminatedCommentOverruns | ccscan.c:171-172 | `/*` at the end of the text: the two advances after the loop leave the cursor past the buffer; corrected it stays on the NUL |
| Scan.SkipFrom | ccscan.c:121-184 | skipspace ends inside the text; when it stops at a newline the newline is consumed |
| Scan.SkipFromStops | ccscan.c:128-183 | without a newline the skip stops at a character that is not a blank, newline or comment opener |
| Scan.SkipExamples | ccscan.c:121-184 | block comments count their newlines, the newline after a line comment ends the skip, a lone slash is not skipped |
| Scan.EscapeInverse | ccscan.c:226-290 | the escapes are one-to-one: a letter decodes to a character exactly when that character needs escaping and is written with that letter |
| Scan.EscapeNotNul | ccscan.c:226-290 | no escape letter is the NUL, so an escape always has a character to read |
| Scan.ScanStr | ccscan.c:186-304 | the scan of a string body moves forward and stays within the text; reaching the end means failure; an interpolation segment closes only in an interpolated string below the nesting limit |
| Scan.Quote | ccscan.c:226-297 | writing a literal never shortens the bytes |
| Scan.ScanStrEscape | ccscan.c:226-290 | a backslash and a known letter give the escaped byte, then the rest of the scan |
| Scan.ScanStrPlain | ccscan.c:293-296 | a byte that needs no escaping is kept, then the rest of the scan |
| Scan.ScanStrRaw | ccscan.c:213-296 | an ordinary character or newline is kept, and a newline is counted |
| Scan.QuoteRoundTrip | ccscan.c:186-304 | a literal written with Quote and closed by a quote scans back to exactly its bytes, in either mode, with no newline counted |
| Scan.QuoteStep | ccscan.c:186-304 | the first byte of a quoted literal scans back to itself and the rest follows |
| Scan.Unterminated | ccscan.c:213-218 | with no quote, backslash or (when interpolating) brace left, the scan fails with UNTERMINATED_STRING at the NUL |
| Scan.IdentEnd | ccscan.c:568-573 | an identifier runs to the first character that is not a letter, digit or '_' |
| Scan.CheckKeyword | ccscan.c:401-408 | a keyword answer means the text is exactly start + \|rest\| long and ends with rest |
| Scan.SecondLetterOfRefUnchecked | ccscan.c:504-518 | as written "rxf" and "rxturn" are typed REF and RETURN; corrected they are identifiers |
| Scan.IdentTypeIsKeywordLookup | ccscan.c:410-566 | the corrected trie types a text as the keyword table does: its keyword's token, IDENTIFIER for any other text |
| Scan.SpellOut | ccscan.c:401-408 | a text that agrees with a word on its first characters and on the rest is the word |
| Scan.KnownKeywordsB | ccscan.c:414-415 | the keywords starting with 'b' are in the table and the corrected trie gives them their tokens |
| Scan.KnownKeywordsC | ccscan.c:417-440 | the keywords starting with 'c' are in the table and the corrected trie gives them their tokens |
| Scan.KnownKeywordsC2 | ccscan.c:425-437 | the keywords starting with 'c' are in the table and the corrected trie gives them their tokens |
| Scan.KnownKeywordsE | ccscan.c:442-454 | the keywords starting with 'e' are in the table and the corrected trie gives them their tokens |
| Scan.KnownKeywordsE2 | ccscan.c:442-454 | the keywords starting with 'e' are in the table and the corrected trie gives them their tokens |
| Scan.KnownKeywordsF | ccscan.c:456-470 | the keywords starting with 'f' are in the table and the corrected trie gives them their tokens |
| Scan.KnownKeywordsF2 | ccscan.c:456-470 | the keywords starting with 'f' are in the table and the corrected trie gives them their tokens |
| Scan.KnownKeywordsI | ccscan.c:472-486 | the keywords starting with 'i' are in the table and the corrected trie gives them their tokens |
| Scan.KnownKeywordsI2 | ccscan.c:472-486 | the keywords starting with 'i' are in the table and the corrected trie gives them their tokens |
| Scan.KnownKeywordsN | ccscan.c:488-502 | the keywords starting with 'n' are in the table and the corrected trie gives them their tokens |
| Scan.KnownKeywordsR | ccscan.c:504-518 | the keywords starting with 'r' are in the table and the corrected trie gives them their tokens |
| Scan.KnownKeywordsO | ccscan.c:520-521 | the keywords starting with 'o' are in the table and the corrected trie gives them their tokens |
| Scan.KnownKeywordsS | ccscan.c:523-539 | the keywords starting with 's' are in the table and the corrected trie gives them their tokens |
| Scan.KnownKeywordsT | ccscan.c:541-555 | the keywords starting with 't' are in the table and the corrected trie gives them their tokens |
| Scan.KnownKeywordsV | ccscan.c:557-558 | the keywords starting with 'v' are in the table and the corrected trie gives them their tokens |
| Scan.KnownKeywordsW | ccscan.c:559-560 | the keywords starting with 'w' are in the table and the corrected trie gives them their tokens |
| Scan.KnownKeywordsG | ccscan.c:561-562 | the keywords starting with 'g' are in the table and the corrected trie gives them their tokens |
| Scan.KeywordOfTrie | ccscan.c:410-566 | every answer of the corrected trie other than IDENTIFIER is the token of the keyword the text spells |
| Scan.KeywordOfTrieB | ccscan.c:414-415 | a keyword answer for a text starting with 'b' is the token of the keyword it spells |
| Scan.KeywordOfTrieC | ccscan.c:417-440 | a keyword answer for a text starting with 'c' is the token of the keyword it spells |
| Scan.KeywordOfTrieE | ccscan.c:442-454 | a keyword answer for a text starting with 'e' is the token of the keyword it spells |
| Scan.KeywordOfTrieF | ccscan.c:456-470 | a keyword answer for a text starting with 'f' is the token of the keyword it spells |
| Scan.KeywordOfTrieI | ccscan.c:472-486 | a keyword answer for a text starting with 'i' is the token of the keyword it spells |
| Scan.KeywordOfTrieN | ccscan.c:488-502 | a keyword answer for a text starting with 'n' is the token of the keyword it spells |
| Scan.KeywordOfTrieR | ccscan.c:504-518 | a keyword answer for a text starting with 'r' is the token of the keyword it spells |
| Scan.KeywordOfTrieO | ccscan.c:520-521 | a keyword answer for a text starting with 'o' is the token of the keyword it spells |
| Scan.KeywordOfTrieS | ccscan.c:523-539 | a keyword answer for a text starting with 's' is the token of the keyword it spells |
| Scan.KeywordOfTrieT | ccscan.c:541-555 | a keyword answer for a text starting with 't' is the token of the keyword it spells |
| Scan.KeywordOfTrieV | ccscan.c:557-558 | a keyword answer for a text starting with 'v' is the token of the keyword it spells |
| Scan.KeywordOfTrieW | ccscan.c:559-560 | a keyword answer for a text starting with 'w' is the token of the keyword it spells |
| Scan.KeywordOfTrieG | ccscan.c:561-562 | a keyword answer for a text starting with 'g' is the token of the keyword it spells |
| Scan.KeywordListed | ccscan.c:410-566 | a text in the keyword table is one of its keys |
| Scan.KeywordInTrie | ccscan.c:410-566 | every keyword is recognised by the corrected trie |
| Scan.SingleSpelled | ccscan.c:614-651 | each one-character operator is spelled by its character |
| Scan.DoubleSpelled | ccscan.c:653-692 | each two-character operator is spelled by its two characters |
| Scan.DoubleSpelledArithmetic | ccscan.c:653-669 | the two-character operators built on + - / # ! ? % ^ |
| Scan.DoubleSpelledComparison | ccscan.c:671-692 | the two-character operators built on > < * = \| & and the dot |
| Scan.SpellingFound | ccscan.c:612-693 | the lookup finds every operator from its spelling |
| Scan.SpellingFoundFromLeftParen | ccscan.c:614-643 | the lookup finds LeftParen, RightParen, LeftBracket, RightBracket from their spellings |
| Scan.SpellingFoundFromSemicolon | ccscan.c:644-651 | the lookup finds Semicolon, Comma, Colon, Tilde from their spellings |
| Scan.SpellingFoundFromPlusEqual | ccscan.c:653-657 | the lookup finds PlusEqual, PlusPlus, Plus, SmallArrow from their spellings |
| Scan.SpellingFoundFromMinusEqual | ccscan.c:655-659 | the lookup finds MinusEqual, MinusMinus, Minus, SlashEqual from their spellings |
| Scan.SpellingFoundFromSlash | ccscan.c:658-663 | the lookup finds Slash, SharpEqual, Sharp, BangEqual from their spellings |
| Scan.SpellingFoundFromBang | ccscan.c:662-667 | the lookup finds Bang, QuestionQuestion, Question, PercentEqual from their spellings |
| Scan.SpellingFoundFromPercent | ccscan.c:666-672 | the lookup finds Percent, CaretEqual, Caret, GreaterEqual from their spellings |
| Scan.SpellingFoundFromGreaterGreater | ccscan.c:671-674 | the lookup finds GreaterGreater, Greater, LessEqual, LessLess from their spellings |
| Scan.SpellingFoundFromLess | ccscan.c:673-676 | the lookup finds Less, StarEqual, StarStar, Star from their spellings |
| Scan.SpellingFoundFromEqualEqual | ccscan.c:677-680 | the lookup finds EqualEqual, Arrow, Equal, BarEqual from their spellings |
| Scan.SpellingFoundFromBarBar | ccscan.c:679-682 | the lookup finds BarBar, Bar, AmpersandEqual, AmpersandAmpersand from their spellings |
| Scan.SpellingFoundFromAmpersand | ccscan.c:681-692 | the lookup finds Ampersand, Dot, DotDot, DotDotDot from their spellings |
| Scan.OperatorOfSpelling | ccscan.c:612-693 | the lookup gives an operator for a text exactly when the text is that operator's spelling |
| Scan.OperatorOfSpelled | ccscan.c:612-693 | the operator a text is looked up as is spelled by that non-empty text |
| Scan.SpellingShort | ccscan.c:612-693 | no operator is longer than three characters |
| Scan.PunctAt | ccscan.c:612-693 | the operator match tests three dots, then two characters, then one, as scantoken does |
| Scan.PunctLongest | ccscan.c:612-693 | operators are matched longest first: the match spells its token and no longer operator spelling is there |
| Scan.PunctExamples | ccscan.c:653-692 | three dots are one token, "->" is the small arrow, "**=" starts with the power operator, '@' is none |
| Scan.HexDigitValue | ccscan.c:306-324 | the value is in 0..15 exactly for a hex digit, and -1 otherwise |
| Scan.BinaryDigitValue | ccscan.c:326-336 | the value is 0 or 1 exactly for a binary digit, and -1 otherwise |
| Scan.HexDigitRoundTrip | ccscan.c:306-336 | the digit scanners read back every digit value, in either case of letter |
| Scan.DigitsEnd | ccscan.c:370-396 | a digit loop stops at the first character that is not a digit of its radix |
| Scan.NumberEnd | ccscan.c:366-399 | a number token ends inside the text, after the first digit |
| Scan.NumberExamples | ccscan.c:384-397 | a fraction needs a digit after the dot; hex and binary stop at the first non-digit |
| Scan.DigitOf | ccscan.c:306-336 | a digit's value is below its radix |
| Scan.HexString | ccscan.c:306-324 | the hex digits of n are a non-empty run of hex digits |
| Scan.HexStringValue | ccscan.c:345 | reading back the hex digits of n gives n |
| Scan.DigitsEndOfRun | ccscan.c:370-396 | a run of digits up to a non-digit ends there |
| Scan.SpaceEnd | ccscan.c:349 | strtoll's skip of leading spaces stops at the first character that is not a space |
| Scan.LongLong | ccscan.c:342-360 | a value within the long long range is itself; any other sets ERANGE |
| Scan.HexLiteral | ccscan.c:345 | strtoll base 16 on the token gives an integer or ERANGE |
| Scan.StrtollBinary | ccscan.c:349 | strtoll base 2 gives an integer or ERANGE |
| Scan.ToInt32 | ccscan.c:349 | the cast to int keeps the value modulo 2^32, as a signed number |
| Scan.NumberLiteral | ccscan.c:338-364 | corrected: a binary number is the value of the token's own binary digits, NUMBER_IS_TOO_BIG above LLONG_MAX like a hex one; a hex number is strtoll's; a decimal number is a floating value, never NUMBER_IS_TOO_BIG (strtod's ERANGE is left out) |
| Scan.HexLiteralRoundTrip | ccscan.c:366-375 | "0x" and the hex digits of n form one number token whose value is n, or NUMBER_IS_TOO_BIG beyond LLONG_MAX |
| Scan.BinaryLiteralReadsPastToken | ccscan.c:349 | `0b -1`: the token is "0b" but strtoll reads the sign and digit after the space, so as written its value is -1 |
| Scan.BinaryLiteralTruncated | ccscan.c:349 | a binary token whose value is above INT_MAX within long long: the value is truncated as written and differs from the corrected one |
| Scan.BumpLast | ccscan.c:621-633 | the brace counters keep their number |
| Scan.StringStep | ccscan.c:186-304 | the string scan keeps the scanner within the text |
| Scan.UnterminatedStringOverruns | ccscan.c:198-217 | an unterminated string: the scan consumes the NUL and leaves the cursor past the buffer |
| Scan.StringStepCorrected | ccscan.c:215-217 | corrected, the same token, and the cursor stays on the NUL instead of past it |
| Scan.UnterminatedThenEof | ccscan.c:583-598 | after the corrected scan stops at the NUL the next call yields EOF |
| Scan.OperatorStep | ccscan.c:612-709 | the operator cases keep the scanner within the text |
| Scan.NumberStep | ccscan.c:366-399 | the token ends at NumberEnd; it is an error exactly when a hex or binary value is out of range, and then NUMBER_IS_TOO_BIG; otherwise a NUMBER token with the value (a decimal is never an error here) |
| Scan.WordStep | ccscan.c:568-576 | the identifier case keeps the scanner within the text |
| Scan.CloseBraceStep | ccscan.c:629-638 | the '}' case keeps the scanner within the text |
| Scan.DollarStep | ccscan.c:695-703 | the '$' case keeps the scanner within the text |
| Scan.After | ccscan.c:600-709 | the dispatch on the first character keeps the scanner within the text |
| Scan.Step | ccscan.c:583-710 | one call keeps the scanner within the text and either moves forward or yields EOF |
| Scan.Start | ccscan.c:593-710 | from the token start a call moves forward or yields EOF |
| Scan.EofSticky | ccscan.c:583-598 | once only blanks and comments are left the call yields EOF, and every further call yields it again |
| Scan.StepToStart | ccscan.c:585-593 | a call that meets no newline starts the token where the skip stopped |
| Scan.StartWord | ccscan.c:568-610 | an identifier is a letter or '_' followed by the longest run of letters, digits and '_', typed by the keyword table |
| Scan.StartToAfter | ccscan.c:595-600 | from the token start a character other than the NUL is consumed and dispatched on |
| Scan.AfterWord | ccscan.c:607-610 | a letter or '_' is the identifier case |
| Scan.WordToken | ccscan.c:568-576 | the identifier case gives the keyword's token, or IDENTIFIER, to the longest word |
| Scan.StartOperator | ccscan.c:612-693 | an operator character starts the longest operator spelled at that point |
| Scan.ShiftedPrepend | ccscan.c:223-296 | collecting bytes one at a time gives the same literal as collecting them all |
| Scan.StringStepClosed | ccscan.c:196-303 | a string whose body scan closes gives a STRING or INTERPOLATION token with the bytes |
| Scan.StringStepFailed | ccscan.c:205-287 | a string whose body scan fails gives the error token and marks the error |
| Scan.Scanner.constructor | ccscan.c:34-43 | line 1, both cursors at the beginning, no open interpolation |
| Scan.Scanner.MatchChar | ccscan.c:82-95 | the current character is consumed exactly when it is the expected one and not the NUL |
| Scan.Scanner.MatchToken | ccscan.c:97-100 | the first token type when the next character matches, else the second |
| Scan.Scanner.MatchNToken | ccscan.c:102-105 | the first type for the first character, the second for the second, else the third |
| Scan.Scanner.SkipSpace | ccscan.c:121-184 | the skip ends where SkipFrom says, counting the lines of block comments |
| Scan.Scanner.SkipLineComment | ccscan.c:149-155 | the cursor moves to the end of the line and the rest of the skip is unchanged |
| Scan.Scanner.SkipBlockComment | ccscan.c:157-173 | corrected: the newlines of the body are counted and the scan resumes past the star-slash or on the NUL |
| Scan.Scanner.ScanString | ccscan.c:186-304 | the token and the new scanner state are StringStep's |
| Scan.Scanner.ScanBody | ccscan.c:196-299 | the bytes, the failure and the interpolation flag are those of ScanStr |
| Scan.Scanner.ScanChar | ccscan.c:196-298 | one pass of the loop reads one character or escape, as ScanStr says |
| Scan.Scanner.ScanHexDigit | ccscan.c:306-324 | the digit's value, consuming it, or -1 without consuming |
| Scan.Scanner.ScanBinaryDigit | ccscan.c:326-336 | the digit's value, consuming it, or -1 without consuming |
| Scan.Scanner.ScanNumber | ccscan.c:366-399 | the token ends at NumberEnd, and the token and state are NumberStep's |
| Scan.Scanner.MakeNumberToken | ccscan.c:338-364 | the token of the number that ends at the cursor, or NUMBER_IS_TOO_BIG for a hex or binary value out of range |
| Scan.Scanner.ScanHexDigits | ccscan.c:370-373 | the loop stops at the end of the hex digits |
| Scan.Scanner.ScanBinaryDigits | ccscan.c:378-381 | the loop stops at the end of the binary digits |
| Scan.Scanner.ScanDecimal | ccscan.c:384-397 | the digits, then a '.' and the fraction when a digit follows it: the cursor ends at NumberEnd |
| Scan.Scanner.ScanDecimalDigits | ccscan.c:384-387 | the loop stops at the end of the decimal digits |
| Scan.Scanner.ScanIdentifier | ccscan.c:568-576 | the token runs to IdentEnd and is typed as WordStep says, by the corrected IdentType |
| Scan.Scanner.ScanOperator | ccscan.c:612-709 | the token and state are OperatorStep's |
| Scan.Scanner.ScanSingle | ccscan.c:614-651 | the token and state are OperatorStep's |
| Scan.Scanner.ScanArithmetic | ccscan.c:653-669 | the token and state are OperatorStep's |
| Scan.Scanner.ScanComparison | ccscan.c:671-709 | the token and state are OperatorStep's |
| Scan.Scanner.ScanAfter | ccscan.c:600-709 | the token and state are After's |
| Scan.Scanner.OpenBrace | ccscan.c:619-627 | the innermost brace counter, if any, goes up, and the token is LEFT_BRACE |
| Scan.Scanner.CloseBrace | ccscan.c:629-638 | the token and state are CloseBraceStep's |
| Scan.Scanner.ScanDollar | ccscan.c:695-703 | the token and state are DollarStep's |
| Scan.Scanner.ScanToken | ccscan.c:583-710 | the token and the new scanner state are Step's (corrected keyword typing, block comments and binary numbers) |
| Scan.Scanner.ScanStart | ccscan.c:593-710 | the token and state are Start's |
| Vm.Short | vm.c:300-304 | the short read from two bytes, high first, fits in 16 bits |
| Vm.ShortOfEmitted | vm.c:300-304 | reading back the two bytes emit_short wrote gives the short |
| Vm.JumpLands | vm.c:1400-1405 | a forward jump patched by patch_jump lands, from just past its operand, on the instruction after the jump's body |
| Vm.LoopLands | vm.c:1406-1411 | a loop emitted by emit_loop jumps back, from just past its operand, to the loop's start |
| Vm.Push | vm.c:332-335 | the value is appended to the live stack and stack_top moves up by one |
| Vm.Pop | vm.c:337-340 | the last live value is returned and removed, and stack_top moves down by one |
| Vm.Drop | vm.c:342-345 | the last live value is removed |
| Vm.DropN | vm.c:347-350 | the last amount live values are removed |
| Vm.Peek | vm.c:352-361 | the slot distance + 1 below stack_top, which for a distance from 0 is the live value that far down |
| Vm.PushThenPop | vm.c:332-340 | a push then a pop gives the value back and leaves the stack as it was |
| Vm.ShortCircuit | vm.c:1412-1450 | `and` is falsy exactly when either side is, `or` exactly when both are, and `??` is null exactly when both sides are, giving the left side when it is not null |
| Vm.Above | vm.c:849-853 | the scan never passes the end of the list |
| Vm.AboveMeans | vm.c:849-853 | on a descending list, the scan passes exactly the entries above local |
| Vm.CaptureKeepsOrder | vm.c:842-869 | capturing keeps the open-upvalue list strictly descending |
| Vm.InsertKeepsPairwise | vm.c:858-867 | an entry placed between those above and those below it keeps every pair ordered |
| Vm.CaptureContents | vm.c:842-869 | afterwards the list holds local and what it held before, and nothing else; local was already captured exactly when it was on the list |
| Vm.AtLeast | vm.c:876 | the loop never passes the end of the list |
| Vm.AtLeastMeans | vm.c:876 | on a descending list, the loop passes exactly the entries at last or above |
| Vm.ScanOpen | vm.c:847-853 | the scan stops after exactly the entries above local |
| Vm.CaptureUpvalue | vm.c:842-869 | the upvalue of the slot is returned: the one already open, with the list unchanged, or a fresh one linked in at its sorted place; the list stays descending |
| Vm.LocsSplice | vm.c:858-867 | linking an upvalue in at a position puts its location there |
| Vm.Close | vm.c:878-880 | the upvalue takes the slot's value and points at its own copy |
| Vm.CloseHead | vm.c:876-882 | one more upvalue from the head is closed and unlinked |
| Vm.CloseUpvalues | vm.c:871-883 | exactly the open upvalues at last or above are closed, from the head, each taking its slot's value; the rest stay open, descending and below last |
| Vm.FinishRounds | vm.c:876-882 | after the last round what is left open is descending and below last, and every closed upvalue holds its slot's value |
| Vm.RoundsClosed | vm.c:876-882 | the rounds so far have closed the first upvalues, each with its own slot's value |
| Vm.StartRounds | vm.c:875-876 | before the loop nothing is closed |
| Vm.RemainBelow | vm.c:876 | what is left open is descending and lies below last |
| Vm.AtLeastExit | vm.c:876 | the loop stops exactly where AtLeast says |
| Vm.OpenSuffix | vm.c:881 | the upvalues left open are the rest of the list, at the same locations |
| Vm.ExecState.constructor | vm.c:300-309 | the instruction pointer into the running code |
| Vm.ExecState.ReadByte | vm.c:306-309 | the byte at ip, and ip past it |
| Vm.ExecState.ReadShort | vm.c:300-304 | the short of the two bytes at ip, and ip past them |
| Vm.ExecState.Jump | vm.c:1400-1405 | ip moves forward by the operand from just past it |
| Vm.ExecState.JumpBack | vm.c:1406-1411 | ip moves back by the operand from just past it |
| Vm.ExecState.JumpIfFalse | vm.c:1373-1381 | the condition is popped, and ip jumps exactly when it was falsy |
| Vm.ExecState.JumpIfNull | vm.c:1382-1390 | ip jumps exactly when the top is null, and the stack is unchanged |
| Vm.ExecState.JumpIfNullPopping | vm.c:1391-1399 | the top is popped, and ip jumps exactly when it was null |
| Vm.ExecState.ShortCircuitJump | vm.c:1412-1450 | a jump keeps the left operand as the result; otherwise it is dropped and the right operand is evaluated |
| Vm.Arguments | vm.c:599-641 | the callee always gets exactly arity argument slots |
| Vm.ArgumentsMeaning | vm.c:599-641 | a passed argument stays in its parameter's slot, a parameter without one is null, and a vararg function's last slot holds the array |
| Vm.NothingLost | vm.c:614-641 | the fixed parameters followed by the array's elements are exactly the arguments passed |
| Vm.PaddedArrayEmpty | vm.c:609-612 | a vararg function called with too few arguments gets an empty array |
| Vm.GrowFrames | vm.c:580-588 | a full frames array is reallocated at twice its capacity keeping the frames; otherwise nothing changes |
| Vm.PushFrame | vm.c:592-598 | the next frame holds the function, its closure, ip at the start of the code and slots at the callee |
| Vm.PadArguments | vm.c:602-613 | the missing parameters get nulls and, when vararg, an empty array |
| Vm.PackArguments | vm.c:614-627 | the last arguments move into a new array, which takes their place |
| Vm.CopyArguments | vm.c:619-624 | a new list holding the last values of the stack, in order |
| Vm.WrapLast | vm.c:633-641 | the last argument is wrapped into a new array in its own slot |
| Vm.FixArguments | vm.c:599-641 | the arguments on top of the stack become the arity slots Arguments lays out, and an array is made exactly for a vararg function |
| Vm.PadShape | vm.c:602-613 | padding on the whole stack: the arguments, then nulls and, when vararg, the array |
| Vm.PackShape | vm.c:614-627 | packing on the whole stack: the extra values make way for the array that holds them |
| Vm.DropShape | vm.c:628-631 | dropping on the whole stack: the arguments past the arity go |
| Vm.Blanks | vm.c:580-588 | a reallocated frames array has the requested length |
| Vm.Stacked | object.c:226-253 | ensuring the stack keeps the frames and the live values |
| Vm.Room | vm.c:580-591 | after the first half of the call there is room for one more frame, and the live values are kept |
| Vm.Pushed | vm.c:592-598 | pushing the frame keeps the live values and the stack |
| Vm.Adjusted | vm.c:599-641 | the arity adjustment keeps the frames |
| Vm.CalledFrames | vm.c:580-598 | after a call there is one more frame; the array doubled exactly when it was full; the frames already there are kept |
| Vm.CalledStack | vm.c:591 | after a call the stack holds max_slots slots above the old top, and is untouched when it already did |
| Vm.CalledArguments | vm.c:591-641 | after a call everything below the arguments is kept and exactly arity argument slots follow the callee |
| Vm.Halves | vm.c:599-641 | the two parts of a concatenation, cut where the first ends |
| Vm.Enter | vm.c:592-641 | the new frame and the arity adjustment, as Entered says |
| Vm.AdjustArguments | vm.c:599-641 | the arity adjustment, as Adjusted says |
| Vm.MakeRoom | vm.c:580-591 | room for one more frame and for max_slots more stack slots, as Room says |
| Vm.StackRoom | object.c:226-253 | lit_ensure_fiber_stack, as Stacked says |
| Vm.StackedIs | object.c:226-253 | what lit_ensure_fiber_stack establishes field by field is Stacked |
| Vm.CallCallable | vm.c:558-643 | the frames, the stack and the arguments end as Called says: one more frame, room for the callee's slots, exactly arity arguments, an array made exactly for a vararg function |
| Vm.ClassObject.constructor | vm.c:1853 | a class with its superclass link |
| Vm.ChainUnique | vm.c:1846-1854 | the superclass chain of a class is unique |
| Vm.ChainLinks | vm.c:1853 | each class after the first in a chain is the superclass of the one before it, and the chain ends at a class without one |
| Vm.InheritsFrom | vm.c:1845-1854 | the walk finds the type exactly when it is on the class's superclass chain |
| Vm.Is | vm.c:1828-1858 | a null instance gives false; a class that cannot be found or a right operand that is not a class is an error leaving the stack alone; otherwise the two operands become whether the type is on the instance's chain |

## Left out

- The VM dispatch loop as a whole (the computed-goto table, the `vm_recoverstate` macros) and the `setjmp`/`longjmp` exit of natives and of parser error recovery: non-local control flow is modelled only as an `Unwind` outcome of the parsing functions and as the outcomes of the modelled opcode handlers.
- Floating point: arithmetic and the `pow`/`fmod`/`floor` opcodes, the optimizer's constant folding, `pack754`/`unpack754`, `lit_util_numbertoint32` and `lit_util_doubletoint`, `%.14g` number printing, and the double `strtod` gives a decimal number token. A double is only its 64-bit pattern here; numeric arguments of natives arrive as the C int they convert to.
- libmath.c and librange.c: their values are doubles.
- The `#` directive of lit_string_format renders a double; the model takes its rendered text as a parameter.
- I/O and the operating system: main.c, dirwrap.h, the File and Directory natives of libfs.c, `lit_generate_source_file` and `lit_build_native_runner` of fs.c, module `require`/`eval` in libcore.c, writer.c, debug.c and error.c's message formatting. Runtime errors are kept as the data their messages are formatted from.
- fs.c: its serializer functions are the same as libfs.c's, and the Fs module, cited against libfs.c, stands for both.
- sds.h: the printf-style appenders (`sdscatvprintf`, `sdscatprintf`, `sdscatfmt`), the byte layout of the headers and the malloc-failure paths.
- The real heap: the allocation thresholds that trigger a collection inside realloc, the "light" allocation path, and per-type freeing. The collector works on abstract objects with sizes and reference lists.
- state.c, api.c (beyond lit_check_number), libclass.c, libobject.c, libmodule.c, libfunc.c and libgc.c: re-entrant calls into the VM and thin native bindings over table lookups.
- The natives that only format or compare through the VM: Array's join, sort wrapper, toString and length, Map's toString, length and iteratorValue, Fiber's done, error, current and toString, and String's subscript and iteratorValue. The functions they build on (the quicksorts, indexOf, the table) are modelled.
- AST allocation and freeing (ccast.c). Expressions are Dafny values.
- Parser.Prefix and Parser.Infix: only the number, literal, string, variable, unary and grouping prefix rules and the binary, logical, compound-assignment and call infix rules are modelled; any other rule (arrays, objects, subscripts, dots, ranges, ternaries, lambdas, `new`, `this`, `super`, `ref`, functions, interpolation) ends the parse with the outcome `Outside`.
- opcodes.inc is not part of this model: Emit takes the opcode numbers and the stack-effect table as constants.
- gen.rb: OptionParser and the help text, `mkdir_p` of the backup directory, the `cproto` subprocess (its output is a parameter), YAML parsing (its result is a parameter), the process id (a parameter) and the `%p` messages on standard error. Files are a map from paths to contents.
- Gen.Downcase: only ASCII letters are lowered, where Ruby's `downcase` also lowers other letters.
- Gen.RunReplace: checks the table with the corrected fail_if_not_sym (Gen.Validate with strict set), and refuses the values 42 and "ok\n-". As written both pass (Gen.OtherPassesAsWritten, Gen.LinePassesAsWritten): with 42, gsub! raises after the backup copy is made; with "ok\n-", the files are rewritten with it. A table that is not a Hash counts as one failure; Ruby may count more while iterating it, and the exit status is the same either way. It takes the loaded table as a parameter, so it runs with the table the corrected Gen.LoadTable reads.
- Gen.Basename: a path ending in '/' is not given Ruby's special treatment of trailing slashes.
- Scan.Scanner.ScanToken: requires the cursor to be inside the buffer; after an unterminated string the source scans again from past the NUL (see "## Findings"), which the class does not follow.
- Scan.Scanner: keywords are typed by the corrected Scan.IdentType, block comments left open stop at the NUL (Scan.BlockResume), and binary numbers take the corrected Scan.NumberLiteral; the as-written versions are modelled beside them.
- Prepr.Preprocessor.Preprocess: runs the corrected loop and starts from an empty open-if list; the list left behind by a failed call is shown by Prepr.StaleOpenIfs on the functions only.
- Emit.Emitter.AddUpvalue: uses the corrected 256-entry bound (Emit.WithUpvalue); the as-written check is Emit.AddUpvalueAsWritten.
- LibArray.Insert: uses the corrected LibArray.NormalizedIndex and LibArray.ValueList.EnsureSize; the size_t wrap of the source is LibArray.NormalizedIndexAsWritten.
- LibArray.SubscriptSet: uses the corrected LibArray.NormalizedIndex.
- LibString.Replace: an empty pattern gives the string back, where the source never ends (LibString.EmptyWhatStandsStill).
- Utf.CodePointAt: decodes with the corrected Utf.DecodeChecked.
- Chunk.Chunk.Shrink: the corrected shrink; lit_chunk_shrink has no caller in this source.
- Core.BasicQuickSort: promises that the range is a permutation of what it was, not that it ends sorted. util_basic_quick_sort keeps partitioning around pivot_index after a swap may have moved the pivot value away from it (libcore.c:181-199); with numbers compared directly, [5, 1, 9, 0, 8] ends as [1, 5, 8, 0, 9]. A sortedness lemma for a corrected partition is not part of this model.
- Core.CustomQuickSort: promises a permutation and not sortedness, for the same pivot handling (libcore.c:61-97).
- Scan.NumberLiteral: a decimal number is always Floating; the ERANGE strtod sets for a decimal too large for a double, or too small under the C library's underflow rule, which ccscan.c:356-360 turns into NUMBER_IS_TOO_BIG, is floating point and not modelled.
- Scan.LiteralAsWritten: a decimal number is always Floating, as for Scan.NumberLiteral.
- Scan.NumberStep: "an error exactly when out of range" holds for hex and binary numbers; a decimal for which strtod sets ERANGE is a NUMBER token here (see Scan.NumberLiteral).
- Scan.Scanner.ScanNumber: a decimal for which strtod sets ERANGE is a NUMBER token here (see Scan.NumberLiteral).
- Scan.Scanner.MakeNumberToken: a decimal for which strtod sets ERANGE is a NUMBER token here (see Scan.NumberLiteral).
- Fs.Output.SaveLines: writes the corrected line table, the line_count + 2 words in use, where libfs.c:282 writes line_count * 2 + 2 words (Fs.Output.SaveLinesAsWritten, see "## Findings").
- Fs.Output.SaveHead: writes the corrected line table (Fs.Output.SaveLines).
- Fs.Output.SaveChunk: writes the corrected line table (Fs.Output.SaveLines).
- Fs.Output.SaveFunction: its chunk has the corrected line table (Fs.Output.SaveLines).
- Fs.Output.SavePrivates: goes over every slot of the table, where libfs.c:423 stops at private_count (Fs.Output.SavePrivatesAsWritten, see "## Findings").
- Fs.Output.SaveModuleHead: writes the private names of the corrected Fs.Output.SavePrivates.
- Fs.Output.SaveModule: writes the corrected line tables and private names.
- Fs.Output.SaveFile: each module is written with the corrected line tables and private names.
- Fs.Output.SaveModules: each module is written with the corrected line tables and private names.
- Fs.Output.SaveLinesAsWritten: requires the line_count * 2 + 2 words to lie in the buffer; past it the source reads memory outside the table (Fs.FourRunsOverrun), which a sequence cannot hold.
- Fs.Output.SavePrivatesAsWritten: requires the table to have at least private_count slots, as a table holding private_count names does.
- Fs.Loader.LoadLines: sets the current pair's index two below the word count, where libfs.c:353 sets line_count to the count (Fs.Loader.LoadLinesAsWritten, see "## Findings").
- Fs.Loader.LoadChunkHead: reads the line table as the corrected Fs.Loader.LoadLines does.
- Fs.Loader.LoadChunk: rebuilds the line table as the corrected Fs.Loader.LoadLines does.
- Fs.Loader.LoadFunction: its chunk is rebuilt as the corrected Fs.Loader.LoadChunk does.
- Fs.Loader.LoadModuleImage: when the names were kept, it requires the file to hold private_count of them (Fs.HeadFits), as the corrected save of any module the emitter built does; a file written by the save as written with fewer names makes the source read the main function's bytes as names (Fs.PrivatesAsWrittenShort), which the loaders do not follow.

## Findings

Each row names the member that models the code as written, with the lemma that exhibits the defect, and the corrected member the rest of the model uses.

| source | as written | input that shows it | evidently intended | confidence | as-written member | corrected member |
|---|---|---|---|---|---|---|
| value.c:100-108 | the result of an instance's `==` method, a boxed value, is passed to lit_bool_to_value as a C truth value, so any non-zero word gives TRUE_VALUE | an instance whose `==` method returns false still compares equal | equal exactly when the method answers true | not executed | Values.CompareValuesAsWritten, Values.CompareValuesAsWrittenIgnoresFalse | Values.CompareValues, Values.CompareValuesHonoursFalse |
| utf.c:177-181 | a lead byte is a four-byte lead when `(b & 0xf8) == 0xf0`, which also accepts F5, F6 and F7 | F7 BF BF BF decodes to 0x1FFFFF, above U+10FFFF, and lit_ustring_from_range then finds no encoding for it | decode only to code points up to U+10FFFF | not executed | Utf.DecodeAcceptsHighLead, Utf.FromRangeRejectsHighLead | Utf.DecodeChecked, Utf.RangeBytesChecked |
| libmap.c:88-95 | clear sets the table's count to 0 and leaves the entries in place | after clear, setting a new key can make an old key readable again, and a table with one free slot makes the next lookup loop forever | clear removes every entry | not executed | LibMap.Map.ClearAsWritten, LibMap.ClearThenSetResurrects, LibMap.ClearThenSetHangs | LibMap.Map.Clear |
| libmap.c:97-106 | a number argument to the map iterator is passed on unchecked, and util_table_iterator reads entries[number + 1] | iterating from -3 reads an entry before the table's first one | a number below -1 starts from the beginning | not executed | LibMap.FirstRead, LibMap.IteratorReadsBeforeEntries | LibMap.MapIterator |
| libarray.c:207-230 | ensuresize fills only the newly allocated slots with null, so slots between count and the old capacity keep stale values | pop, then extend the list by one: the new element is the popped value, not null | the new elements are null | not executed | LibArray.ValueList.EnsureSizeAsWritten, LibArray.PopThenExtendReadsStale | LibArray.ValueList.EnsureSize |
| libarray.c:338-342 | a negative index becomes `fmax(0, count + index)`, where the size_t sum wraps before the floor applies | `[1, 2, 3][-5]` indexes far past the buffer | a negative index counts from the end, floored at 0 | not executed | LibArray.NormalizedIndexAsWritten, LibArray.NegativeIndexBelowCountIsUndefined | LibArray.NormalizedIndex, LibArray.Insert |
| libarray.c:362-366 | subscript returns null only at or past the capacity | pop, then read the popped index: the popped value comes back | null at or past the count | not executed | LibArray.SubscriptGetAsWritten, LibArray.PopThenGetReadsStale | LibArray.SubscriptGet |
| libarray.c:472-475 | addAll re-reads the argument's count on every pass | `a.addAll(a)` on a non-empty array never ends | append the argument's elements as they were | not executed | LibArray.AddAllAsWritten, LibArray.AddSelfKeepsGoing | LibArray.AddAll, LibArray.NativeAddAll |
| libarray.c:306-313 | the number of elements copied is `fmin(length, to - from + 1)` converted to size_t | `[1, 2, 3].slice(5, 10)` gives a negative count | an empty result | not executed | LibArray.SpliceAsWritten, LibArray.SpliceFromPastEndIsUndefined | LibArray.Splice |
| chunk.c:136-142 | shrink cuts the line table to line_count + 2 words, but a push that opens a new run writes the two words after that | shrink, then push a byte from a new line: lines[line_count + 2] and lines[line_count + 3] are written past the buffer (lit_chunk_shrink has no caller in this source) | keep the two spare words | not executed | Chunk.Chunk.ShrinkAsWritten, Chunk.ShrinkThenPushOverflows | Chunk.Chunk.Shrink, Chunk.ShrinkThenPushFits |
| ccscan.c:504-518 | the 'r' branch of the keyword trie tests start[2] where it means start[1] | "rxf" is scanned as REF and "rxturn" as RETURN | only "ref" and "return" are keywords | not executed | Scan.IdentTypeAsWritten, Scan.SecondLetterOfRefUnchecked | Scan.IdentType, Scan.IdentTypeIsKeywordLookup |
| ccscan.c:157-173 | after an unterminated block comment the two advances past the closing star-slash still happen | `/*` at the end of the source leaves the cursor past the NUL | stop at the NUL | not executed | Scan.BlockResumeAsWritten, Scan.UnterminatedCommentOverruns | Scan.BlockResume |
| ccscan.c:349 | a binary number is `(int)strtoll(start + 2, NULL, 2)`, which skips spaces and a sign past the token and truncates to int | `0b -1` is -1 although its digits give 0, and 0b followed by 32 ones is truncated | the value of the token's own digits, too big above LLONG_MAX | not executed | Scan.LiteralAsWritten, Scan.BinaryLiteralReadsPastToken, Scan.BinaryLiteralTruncated | Scan.NumberLiteral |
| ccscan.c:198-217 | the string loop advances over the NUL before reporting an unterminated string | `"abc` at the end of the source leaves the cursor past the buffer | stop at the NUL and scan EOF next | not executed | Scan.StringStep, Scan.UnterminatedStringOverruns | Scan.StringStepCorrected, Scan.UnterminatedThenEof |
| ccemit.c:456-480 | add_upvalue checks the count against UINT16_COUNT, but the upvalue array holds UINT8_COUNT entries (lit.h:1409) | a 257th distinct upvalue is written past the array | report too many upvalues at 256 | not executed | Emit.AddUpvalueAsWritten, Emit.UpvalueOverflow | Emit.WithUpvalue, Emit.UpvalueAdded |
| libstring.c:675-679 | after a match the index moves by `length - 1` and then by one, in size_t | `"ab".replace("", "x")`: the step is 0 and the first pass never ends | an empty pattern matches nothing | not executed | LibString.NextAfterMatch, LibString.EmptyWhatStandsStill | LibString.Replace, LibString.NextAfterMatchSkips |
| lit.h:1702-1708 | lit_pop returns the slot at stack_top and then decrements stack_top | a push followed by lit_pop returns the slot above the pushed value | return the value on top of the stack, as vm.c's pop does | not executed | Lit.Fiber.Pop, Lit.PushThenPopReturnsSlotAbove | Lit.Fiber.PopLast, Lit.PushThenPopLastRoundTrip |
| ccparser.c:112 | `\|\|` has the precedence of `&&` | `a && b \|\| c` parses as `a && (b \|\| c)` | `\|\|` binds looser: `(a && b) \|\| c` | not executed | Parser.SetupRules, ParserProps.OrBindsTighterAsWritten | Parser.CorrectedRules, ParserProps.OrBindsLooser, ParserProps.CorrectedLogical |
| ccparser.c:80-117 | `~` and `...` have a precedence but no infix rule, so the infix loop calls a NULL rule | `a ~ b` and `a ... b` | precedence NONE for tokens without an infix rule | not executed | Parser.SetupRules, ParserProps.EnteredWithoutInfix | Parser.CorrectedRules, ParserProps.EnteredHasInfix |
| gen.rb:38-50 | fail_if_not_sym returns 0 for anything that is not a String, and `/^\w+$/` matches any one line of a string | a table with the key 42, or the value "ok\n-", passes validation | only whole-word strings pass | not executed | Gen.FailIfNotSymAsWritten, Gen.OtherPassesAsWritten, Gen.LinePassesAsWritten, Gen.NonStringKeyPassesAsWritten | Gen.FailIfNotSym, Gen.ValidIff |
| gen.rb:169 | the table is read from "syms.yml" whatever symbol file was named and checked | `replace names.yml lit.c` reads syms.yml | read the named file | not executed | Gen.LoadTableAsWritten, Gen.TableIgnoresArgument | Gen.LoadTable, Gen.TableIsArgument |
| gen.rb:216-218 | the verb patterns are anchored only at the start | "grep" runs generate and "remove" runs replace | only g, gen, generate, r, re and replace, in any case | not executed | Gen.VerbAsWritten, Gen.PrefixVerbs | Gen.VerbOf, Gen.VerbsAgree |
| ccprepr.c:152-179 | `#else` and `#endif` use the last element of the open-if list without checking that it is non-empty | `#else` alone writes below the empty list | report UNCLOSED_MACRO | not executed | Prepr.StrayElse | Prepr.ElseWithoutBranch |
| ccprepr.c:88 | a block comment ends at its first `*` | `/* *` newline `#x */` reports the unknown directive `#x` | a block comment ends at its star-slash | not executed | Prepr.BlockCommentEndAsWritten, Prepr.StarredCommentAsWritten, Prepr.StarInComment | Prepr.BlockCommentEnd, Prepr.StarredCommentCorrected |
| ccprepr.c:76-111 | a comment inside a directive does not end the directive's argument | `#undef //` newline `#define A` defines the name "//\n#define" and not A | a comment ends the argument | not executed | Prepr.CommentInDirective | Prepr.CommentedUndefCorrected |
| ccprepr.c:211-216 | the open-if list is emptied only when preprocessing succeeds | after `#ifdef A` left open, preprocessing an empty text reports UNCLOSED_MACRO | each call starts with no open branch | not executed | Prepr.StaleOpenIfs | Prepr.Preprocessor.Preprocess |
| libfs.c:280-288 | save_chunk writes line_count * 2 + 2 words of the line table, though line_count is the index of the current pair's first word (chunk.c:59-71) | four runs of lines: line_count 6 in a buffer of ten words, and fourteen words are read | write the line_count + 2 words in use | not executed | Fs.Output.SaveLinesAsWritten, Fs.WordsAsWritten, Fs.FourRunsOverrun | Fs.Output.SaveLines, Fs.WordsInUse |
| libfs.c:349-358 | load_chunk sets line_count to the number of words read | any chunk with line information saved and loaded back: line_count becomes 2 * line_count + 2, past the table, so the next push reads a word never written and the next save reads past the table | line_count two below the number of words | not executed | Fs.Loader.LoadLinesAsWritten, Fs.ReloadAsWrittenLosesCurrentPair | Fs.Loader.LoadLines, Fs.Reloaded |
| libfs.c:423-428 | lit_save_module writes the names of the occupied slots among the first private_count slots only, while lit_load_module reads private_count names (libfs.c:469-476) | a module whose one private name sits in the table's second slot: no name is written, and the loader reads one from the main function's bytes | write the name of every occupied slot | not executed | Fs.Output.SavePrivatesAsWritten, Fs.PrivatesAsWritten, Fs.PrivatesAsWrittenShort, Fs.SecondSlotDropped | Fs.Output.SavePrivates, Fs.Loader.LoadModuleImage |
