# HD44780 character LCD driver: a Dafny model

This project models the core of a small C driver for HD44780-style character
LCDs and proves properties of that model. The core covers:

- the `LCD_CMD_*` instruction encoders;
- the cursor and its display-RAM address (`LCD_DECODE_CURSOR`, `lcdUpdateCursor`);
- the bus transaction engine (`lcdCommand`, `lcdWrite`), including busy-flag polling;
- the public helpers built on the engine: `lcdClear`, `lcdHome`, `lcdDirection`,
  `lcdNext`, `lcdSetDisplay`, `lcdSetCursor`, `lcdStoreGlyph`, `lcdPutChar` and
  `lcdPutString`;
- the power-on sequence (`lcdInit4Bit`, `lcdInit`).

The driver talks to hardware only through two callbacks, `lcdBusIO` and
`lcdDelay`. The model replaces them with a *script*: a sequence of integers
that answers the calls in order. Once the script runs out, every further call
answers 0.

Each driver operation is a pure function. It takes the driver record
(`Lcd.Driver`), its arguments and the script. It returns a `Lcd.Run`, which
holds:

- the C return code;
- the updated record;
- the unused script;
- the *trace*: every callback call made, as `Bus.Event`s.

`Lcd.Sound` ties the trace to the script. Each call consumes one answer. No
call follows a failed one. A zero return code means no call failed. A bus call
fails when its answer is negative, and a delay fails when its answer is non-zero.

Modules, in dependency order:

- `Commands`: the instruction bytes.
- `Cursor`: grid positions, the step, the address formula.
- `Bus`: events, the script, short-circuit `||` chains.
- `Lcd`: the driver record, `Run`, sequencing.
- `Engine`: `lcdCommand` and `lcdWrite`.
- `EngineFacts`: exact call sequences of transactions, and their error cuts.
- `Facade`: the helpers in `include/lcd.h`.
- `FacadeFacts`: the helpers' call sequences and error paths.
- `Addressing`: the controller's address counter, and where written characters land.
- `Init`: `lcdInit4Bit` and `lcdInit`.

Behaviour worth knowing, where the code does more or less than its header
comments suggest (for example `include/lcd.h:273`, "Non-zero value on error.
Updates errno."). The model follows the code:

- **Final call of a transaction.** The last call of a transaction is the
  settle delay (write-only mode) or the idle bus cycle (read-write mode). Its
  answer is returned as is, and `error` is not set. In read-write mode a
  non-zero, non-negative bus answer therefore makes `lcdCommand` return that
  value. Helpers such as `lcdClear` then report it as a failure. See
  `EngineFacts.TransferCompletes`, whose `last` answer is arbitrary.
- **Settle delays.** A failed settle delay in `lcdClear`, `lcdHome`,
  `lcdDirection` and `lcdInit` gives -1 without recording `EIO`
  (`FacadeFacts.SettledDelayFails`).
- **Re-address in `lcdPutString`.** The re-address command sends the
  previous address, not the new one (see Findings).
- **8-bit initialisation.** It is rejected by an `assert`, not by an error
  code. `Init.Init` takes 4-bit mode as a precondition.

## Model

| member | source | states |
|---|---|---|
| Commands.Entry | include/lcd.h:41 | the entry-mode byte lies in 0x04..0x07 with the direction flag in bit 1 and the shift flag in bit 0 |
| Commands.Display | include/lcd.h:48 | the display-control byte lies in 0x08..0x0F with display, cursor and blink in bits 2, 1, 0 |
| Commands.CursorShift | include/lcd.h:54 | the shift byte lies in 0x10..0x1C with shift and right in bits 3 and 2 and bits 1, 0 clear |
| Commands.Function | include/lcd.h:61 | the function-set byte lies in 0x20..0x3C with bus width, lines and font in bits 4, 3, 2 and bits 1, 0 clear |
| Commands.TagIsHighestBit | include/lcd.h:41-61 | every flag instruction's tag is its highest set bit, so the four families never share a byte |
| Commands.FunctionExamples | include/lcd.h:61 | FUNCTION(1,0,0) is 0x30 and FUNCTION(0,0,0) is 0x20, the bytes the power-on sequence sends |
| Commands.CAddr | include/lcd.h:66 | the set-CGRAM-address byte lies in 0x40..0x7F and carries the address's low six bits |
| Commands.CAddrOffset | include/lcd.h:66 | the set-CGRAM-address byte is exactly 0x40 plus the address modulo 64 |
| Commands.DAddr | include/lcd.h:71 | the set-DDRAM-address byte lies in 0x80..0xFF and carries the address's low seven bits |
| Commands.DAddrOffset | include/lcd.h:71 | the set-DDRAM-address byte is exactly 0x80 plus the address modulo 128 |
| Lcd.LoadDefaultTiming | include/lcd.h:182-190 | the six timings become 10, 10, 10, 50, 500 and 50000 us and nothing else in the record changes |
| Lcd.Advance | include/lcd.h:244-268 | updating the cursor changes only the cursor and keeps a valid driver valid |
| Cursor.Step | include/lcd.h:244-268 | a step in either direction keeps the cursor on a non-empty grid |
| Cursor.StepIsSuccessor | include/lcd.h:246-266 | against row-major order: a forward step goes to the next cell and wraps from the last to the first; a reverse step goes to the previous cell and wraps from the first to the last |
| Cursor.StepRoundTrip | include/lcd.h:246-266 | forward then reverse, and reverse then forward, return to the starting cell, wrap boundaries included |
| Cursor.WrapExample | include/lcd.h:246-266 | on a 16x2 display (15,0) steps forward to (0,1), back again, and their addresses are 15 and 64 |
| Cursor.StepNInGrid | include/lcd.h:244-268 | any number of steps keeps the cursor on the grid |
| Cursor.StepNIndex | include/lcd.h:244-268 | n forward steps that do not pass the last cell move the row-major index by exactly n |
| Cursor.DecodeBounds | include/lcd.h:222-228 | on up to 64 columns by 2 rows, or 32 columns by 4 rows, every cell's address is at most 0x7F |
| Cursor.DecodeInjective | include/lcd.h:222-228 | on those geometries distinct cells have distinct addresses |
| Cursor.WideCollision | include/lcd.h:222-228 | on 33 columns by 3 rows the cells (31,2) and (0,1) share address 64, so the bound on the geometry is needed |
| Bus.RunChain | src/lcd.c:37-48 | a `\|\|` chain of calls issues the calls in order up to and including the first failure, and all of them when none fails |
| Bus.ChainCompletes | src/lcd.c:37-48 | a chain whose calls all succeed issues every call and consumes one answer each |
| Bus.ChainStopsAt | src/lcd.c:37-48 | a chain whose first failure is call j issues exactly calls 0..j |
| Engine.Shl4 | src/lcd.c:54 | `command <<= 4` on a byte moves the low nibble up and clears the low nibble |
| Engine.PollIter | src/lcd.c:90-101 | one busy-poll iteration has 5 calls in 8-bit mode and 9 in 4-bit mode, the status read being the fourth |
| Engine.Poll | src/lcd.c:88-108 | the poll loop follows the script; on success it ran whole iterations, every status read before the last one busy and the last one not; on failure it stops right after the failed call, and every status read of a completed iteration was busy |
| Engine.Finish | src/lcd.c:70-110 | after the written halves, either a call inside the poll fails, ending the calls there, and only then `EIO` is recorded and -1 returned, or the record is unchanged and the answer of the final settle delay or idle cycle is returned |
| Engine.Transfer | src/lcd.c:34-112 | a transaction follows the script and ends in one of two ways: a call before the final one fails, the calls end with it, `EIO` is recorded and -1 returned; or the record is unchanged, the trace runs past the written halves to the final settle delay or idle cycle, and that call's answer is returned |
| Engine.Command | src/lcd.c:34-112 | `lcdCommand` starts with the command byte on the bus, RS and enable low, and either ends at a failed call, recording `EIO` and returning -1, or returns the final call's answer with the record unchanged |
| Engine.Write | src/lcd.c:114-192 | `lcdWrite` starts with the data byte on the bus with RS high, with the same two outcomes as `lcdCommand` |
| EngineFacts.PollRunsUntilReady | src/lcd.c:88-108 | a controller busy k times then ready gives exactly k+1 iterations, consuming exactly their answers |
| EngineFacts.PollStopsAt | src/lcd.c:90-107 | a failed call at position j of the loop ends it right there with the rest of the script untouched |
| EngineFacts.TransferCompletes | src/lcd.c:34-112 | with k busy reads the transaction makes exactly the reference call sequence `Ideal`, returns the last call's answer unchanged and leaves `error` alone |
| EngineFacts.TransferStopsAt | src/lcd.c:37-107 | a failure at any call before the last sets `EIO`, returns -1 and cuts the trace right after the failed call |
| EngineFacts.TransferQuiet | src/lcd.c:34-112 | with callbacks that always succeed a transaction is exactly its reference sequence with one poll iteration |
| EngineFacts.WriteMirrorsCommand | src/lcd.c:114-192 | `lcdWrite` gives `lcdCommand`'s result, record and script use, and its trace with RS raised only on the written halves |
| Facade.Settled | include/lcd.h:278 | a command then a delay: -1 on either failing, `EIO` only from the command |
| Facade.Clear | include/lcd.h:275-288 | the cursor goes to (0,0) only when command and delay both succeed; otherwise -1 and the cursor stays |
| Facade.Home | include/lcd.h:295-308 | as clear, with the home instruction and the long delay |
| Facade.Direction | include/lcd.h:316-328 | the direction is recorded only when the entry-mode command and delay succeed |
| Facade.Next | include/lcd.h:335-347 | the cursor steps first and stays stepped even when the single set-address command for the new cell fails |
| Facade.SetDisplay | include/lcd.h:357-361 | one display-control command whose result is passed through |
| Facade.SetCursor | include/lcd.h:370-381 | the cursor moves before the single set-address command, and stays moved even when it fails |
| Facade.CellCommandTargetsCell | include/lcd.h:376-380 | on standard geometries the command `lcdSetCursor` sends is 0x80 plus the cell's address |
| Facade.CellCommandsDistinct | include/lcd.h:376-380 | on standard geometries distinct cells get distinct set-address commands |
| Facade.WriteAll | include/lcd.h:403-406 | writing a run of bytes stops at the first failing write with -1 and never touches the cursor |
| Facade.StoreGlyph | include/lcd.h:393-409 | storing a glyph sends the glyph's CGRAM address first and fails with -1 at the first failing call |
| Facade.GlyphSlots | include/lcd.h:399-400 | each glyph's 8 or 10 rows fit in character RAM behind its set-address command, and distinct glyphs never overlap |
| Facade.GlyphWraps | include/lcd.h:396-399 | in the large font any `char`, negative ones included, lands on the slot of its residue modulo 8, one of 0, 16, 32, 48 |
| Facade.GlyphMask | include/lcd.h:399 | the model's large-font slot number is `which & 0x06` on the two's-complement byte of the `char` |
| Facade.Place | include/lcd.h:422-423 | `lcdPutChar`'s first half addresses the cursor's cell and fails with -1 |
| Facade.PutChar | include/lcd.h:419-428 | on success the cursor has stepped once; in any case it moved at most once and only the cursor and `error` changed |
| Facade.Readdress | include/lcd.h:452-459 | the re-address command is sent exactly when the new address does not follow the previous one, and carries the previous address as written |
| Facade.PutStep | include/lcd.h:448-459 | one loop pass writes the character first and, on success, steps the cursor once |
| Facade.PutFrom | include/lcd.h:446-462 | the loop and final command leave the cursor \|str\| steps on when they succeed |
| Facade.Put | include/lcd.h:438-463 | `lcdPutString` starts by addressing the cursor's cell and on success leaves the cursor \|str\| steps on, the rest of the record unchanged |
| Facade.PutString | include/lcd.h:438-463 | `lcdPutString` as written: on success the cursor is \|str\| steps on and a valid record stays valid |
| Facade.PutStringFixed | include/lcd.h:438-463 | the corrected `lcdPutString`, with the same cursor and validity promises |
| FacadeFacts.SettledQuiet | include/lcd.h:278 | with succeeding callbacks a command-and-delay is the command's reference sequence then the delay |
| FacadeFacts.SettledDelayFails | include/lcd.h:278-280 | a failing delay after a successful command gives -1 without recording an error |
| FacadeFacts.ClearQuiet | include/lcd.h:275-288 | a quiet clear sends 0x01, waits the short hold, and homes the cursor |
| FacadeFacts.ClearDelayFails | include/lcd.h:278-281 | a clear whose delay fails leaves the cursor where it was |
| FacadeFacts.HomeQuiet | include/lcd.h:295-308 | a quiet home sends 0x02, waits the long hold, and homes the cursor |
| FacadeFacts.DirectionQuiet | include/lcd.h:316-328 | a quiet direction change sends ENTRY(forward, 0) and records the direction |
| FacadeFacts.NextQuiet | include/lcd.h:335-347 | a quiet `lcdNext` steps the cursor and sends the new cell's address |
| FacadeFacts.SetDisplayQuiet | include/lcd.h:357-361 | a quiet `lcdSetDisplay` is one display-control transaction |
| FacadeFacts.SetCursorQuiet | include/lcd.h:370-381 | a quiet `lcdSetCursor` moves the cursor and sends one set-address transaction |
| FacadeFacts.WriteAllQuiet | include/lcd.h:403-406 | quiet writes are one write transaction per byte, in order |
| FacadeFacts.StoreGlyphQuiet | include/lcd.h:393-409 | a quiet glyph store is the CGRAM address command then 8 or 10 row writes |
| FacadeFacts.PlaceQuiet | include/lcd.h:422 | a quiet first half of `lcdPutChar` addresses the cell then writes the character |
| FacadeFacts.PutCharQuiet | include/lcd.h:419-428 | a quiet `lcdPutChar` addresses, writes, steps and addresses the next cell |
| FacadeFacts.ReaddressQuiet | include/lcd.h:452-459 | quietly, the re-address command is issued exactly as `Readdressing` lists it |
| FacadeFacts.PutStepQuiet | include/lcd.h:448-459 | a quiet loop pass is a write and the listed re-address |
| FacadeFacts.PutFromQuiet | include/lcd.h:446-462 | the quiet loop makes exactly the calls `PutOpsFrom` lists and steps the cursor \|str\| times |
| FacadeFacts.PutStringQuiet | include/lcd.h:438-463 | a quiet `lcdPutString` makes exactly the calls `PutOps` lists and steps the cursor \|str\| times |
| FacadeFacts.PutFromMovesAtMost | include/lcd.h:446-462 | whatever the callbacks answer, the loop leaves the cursor on one of the cells it was to pass, at most \|str\| steps on (which one a given failure leaves it on is `PutFromStopsAt`) |
| FacadeFacts.PutMovesAtMost | include/lcd.h:438-463 | whatever the callbacks answer, `lcdPutString` leaves the cursor at most \|str\| steps on (which step a given failure leaves it on is `PutStopsAt`) |
| FacadeFacts.PutFromStopsAt | include/lcd.h:446-462 | when call i of the loop's transaction j fails and every earlier call succeeds, the loop returns -1 with `EIO` recorded, its calls end at the failed one, the rest of the script is untouched, and the cursor has stepped once per character whose write went through |
| FacadeFacts.PutStopsAt | include/lcd.h:438-463 | the same failure injection for the whole of `lcdPutString`, its first set-address command included |
| FacadeFacts.PutOpsLast | include/lcd.h:462 | the last call of `lcdPutString` addresses the cell the cursor reaches after the whole string |
| Addressing.PutStringFixedLands | include/lcd.h:443-462 | with the corrected re-address, writing forward, the i-th character lands on the address of the i-th cell the cursor passes |
| Addressing.PutStringMisplaces | include/lcd.h:456 | as written, three characters from (14,0) on a 16x2 display land on 14, 15, 15 instead of 14, 15, 64 |
| Init.Init4Bit | src/lcd.c:194-240 | `lcdInit4Bit` starts with 0x30 on the bus; a trace cut short inside the raw calls means `EIO` and -1 |
| Init.Init4BitQuiet | src/lcd.c:194-240 | quietly: three 0x30 pulses with 5000 us, 100 us and data-hold waits (the third without setup), a 0x20 pulse with a data-hold + 100 wait, then `lcdCommand(0x20)` |
| Init.Init4BitStopsAt | src/lcd.c:199-237 | a failure at any raw call sets `EIO`, returns -1 and makes no later call |
| Init.Setup | src/lcd.c:248-258 | `lcdInit`'s middle stops at the first failing step with -1 |
| Init.Init | src/lcd.c:242-265 | `lcdInit` puts the cursor at (0,0) whatever happens and otherwise changes only `error` |
| Init.SetupQuiet | src/lcd.c:248-258 | quietly: `lcdInit4Bit`, the function set for lines and font, and a short-hold delay |
| Init.InitQuiet | src/lcd.c:242-265 | quietly: the full power-on sequence ending in `lcdClear`, with the cursor at (0,0) |

## Left out

- The weak-symbol and function-pointer dispatch of `lcdBusIO` and `lcdDelay`
  (src/lcd.c:12-32) is not modelled. The script of answers stands for both callbacks.
- Real GPIO levels and real time are not modelled. Only the order and values
  of the calls are.
- Termination of the busy poll on a controller that never clears bit 7 is not
  proved. The source has no cap. In the model the busy count is decided by the
  script, which has finite length.
- `assert`s become preconditions:
  - the cell bounds of `lcdSetCursor`;
  - the glyph number of `lcdStoreGlyph`;
  - 4-bit mode in `lcdInit`.

  Builds with `NDEBUG` run past them; that behaviour is not modelled.
- The cursor fields are signed 8-bit and the address is unsigned 8-bit.
  `Lcd.Valid` bounds width and height by 127, and addresses are reduced
  modulo 256 where the source stores them in a `uint8_t`. Overflow of the
  cursor fields themselves is not modelled.
- Bit-field packing of the record, `userData`, `lcdPutZString` (a `strlen`
  wrapper) and the commented-out debug code are not modelled.
- Characters are bytes. The sign of `char` plays no part, except for
  `lcdStoreGlyph`'s `which`.
- Facade.StoreGlyph: in the small font `which` must be non-negative. The
  assertion lets a negative `char` through, but `which << 3` is then undefined
  behaviour in C, and the header documents the range 0 to 8. In the large font
  every `char` is accepted: `which >> 1` is read as floor division and
  `which & 0x06` as in two's complement (`Facade.GlyphMask`).
- Cursor.DecodeBounds, Cursor.DecodeInjective, Facade.CellCommandTargetsCell
  and Facade.CellCommandsDistinct are stated only for the geometries in
  `Cursor.Standard`: up to 64 columns on one or two rows, or up to 32 columns
  on three or four rows. With three or more rows and more than 32 columns the
  formula maps two cells to one address (`Cursor.WideCollision`).
- Addressing.PutStringFixedLands is stated for the forward direction only. In
  reverse, the corrected loop can still misplace a character when a single-column
  grid wraps (for example width 1, height 3), and that case is not analysed.
- The controller model in `Addressing` lets the address counter wrap modulo
  128. It does not model the controller's jump from 0x27 to 0x40 in two-line
  mode. The counterexample in Findings does not reach that jump.
- Facade.PutString and Facade.PutStringFixed state the success case and
  validity. The failure cases are stated separately: FacadeFacts.PutMovesAtMost
  bounds the cursor for any answers, and FacadeFacts.PutStopsAt gives the exact
  outcome of a failure at any call.
- FacadeFacts.PutFromStopsAt and FacadeFacts.PutStopsAt inject failures at
  every call of a transaction except its last one (the settle delay or idle
  cycle), whose answer is passed through as the transaction's return value.
  A non-zero answer there also stops `lcdPutString`, without `EIO`; for that
  case only the bound of FacadeFacts.PutMovesAtMost is stated.

## Findings

| source | as written | input that shows it | evidently intended | confidence | as-written member | corrected member |
|---|---|---|---|---|---|---|
| include/lcd.h:456 | when the new cell's address does not follow the previous one, `lcdPutString` sends `LCD_CMD_DADDR(address)`, the previous address | 16x2 display, cursor (14,0), writing forward "ABC": the third character belongs at 64 (second line) but the command sends 15 again, so it overwrites the second character | send `LCD_CMD_DADDR(newaddr)`, so the next character lands on the new cursor cell | not executed | Addressing.PutStringMisplaces | Addressing.PutStringFixedLands |
