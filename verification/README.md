# Proofs about the RISC-V lab repository

The repository holds a small SoC simulator with a bit-banged UART, the tool that turns byte images
into word images together with the loader that reads both, several implementations of one MNIST
network that use custom SIMD instructions, two fixed-point versions of that network, and, inside its
toolchain, the linker code that hands out slots of the global offset table. This project models the
five and proves what each of them is for. `dafny verify dfyconfig.toml` checks everything.

Code that changes state keeps that form here: classes with the same fields, loops with the same
steps, arrays written in place. Every such method is proved equal to a function on values, and the
theorems are about those functions, over all inputs, all line traces and all runs.

**UART** (`Uart`, `UartTransmit`, `UartReceive`, `UartDrift`, `UartStream`, `UartLoopback`). `UARTBitDriver` is a
64-bit cycle counter with a transmitter and a mid-bit-sampling receiver. The line of a sent byte is
given outright for every starting counter, wrap-around included. On an arbitrary line the receiver is
shown equal to a decoder that has no state but its position and jumps from frame to frame. Two drivers
with different periods are shown to understand each other exactly when their periods are in tolerance,
and messages without a pause between bytes exactly when the receiver's period is not the longer one too.
Looped back, transmitter and receiver are the identity on byte streams, at an exact rate. Write P for
the cycles in a bit: reception needs P >= 2, and P >= 2 is shown to be necessary as well. A `Session`
or a `Run` is any sequence of states that follows the driver's steps; each start and line has one.

**Host port** (`HostFeed`, `HostSerial`, `HostPort`). The 256-slot ring, the valid/ack handshake and the serial
branch of the simulator's loop. Host bytes and device acknowledgements are arbitrary. `main` selects the parallel
branch; the serial branch is modelled with the driver's own line wired back to its receiver. Nothing is lost,
reordered or invented; a byte is refused exactly when 255 are waiting; and in serial mode what is accepted
arrives, at a known pass. A `SerialRun` is any sequence of states that follows the passes of the loop.

**Hex images** (`HexText`, `HexPrint`, `HexLoader`, `HexLines`, `HexTranslate`, `HexTranslator`, `HexFormats`,
`HexShapes`, `HexImages`, `HexBounds`, `HexPipeline`, `HexAnyOrder`, `HexObjcopy`). Texts are sequences of
characters: scanning and printing of numbers is part of the model, in lower case as the translator prints and
in upper case as objcopy does. `HexObjcopy` starts at the sections of a program: the text objcopy writes for
them, in whatever order they come, is loaded and translated to their bytes. Translating a byte image and loading the result is
proved to give the memory that loading the byte image gives, under exact conditions. An image in which no
directive goes back without ending a segment survives exactly when no nonzero byte is covered by padding,
in front of, between or behind segments, later than the last data for its address; for ascending images
that comes down to a look at each directive. A directive that goes back without ending the segment is
ignored, and from then on bytes land elsewhere. Whether that harms one image depends on its bytes; all
images with the same addresses and lengths survive exactly when each address is last written in step and
not padded or written out of step after that. Concrete images show each way to lose a byte. The loader's
bounds check adds in 32 bits; the model also says exactly which files get past it.

**SIMD network** (`Simd`, `Mlp`, `MlpWidths`, `MlpKernels`, `MlpForward`). Memory is little-endian bytes;
a vector unit holds v1 and v2; the meaning of VLD, VMAC and PVMAC is the documented one (lane products summed
into a 32-bit scalar). All seven forward passes are proved to compute their layers as one specification
says, so the five 8-bit ones are identical. The widths are compared in `MlpWidths`: the narrow outputs are
the wide ones cut off, for every second layer, exactly when each hidden value that is cut off equals every
positive one and the wide sums cannot overflow; networks of the real shapes show what happens otherwise.

**Fixed point** (`FixedPoint`, `FixedNets`, `FixedRun`). Q16.16 networks against the same networks over
the reals with the same quantised data: every product is rounded down on its own. Error bounds go
through both layers to the predicted class.

**Global offset table** (`GotSpec`, `GotInvariant`, `GotRuns`, `GotSlots`, `GotWords`, `GotLoader`, `GotLoaded`,
`GotLists`). Linked lists of entries on the heap carve words from one section. An owner map for the words of the
section is the invariant of every run of requests, patches and emissions, requests that fail included: the
caller at tools/binutils-2.41/bfd/elf32-arc.c:2100-2106 does not look at the result of a request. A later
relocation for it (elf32-arc.c:1750-1759) then finds no entry, and the source reads the offset through a null
pointer; the model has no offset there, and says exactly in which runs that happens. `GotSlots` says where each
slot lies and how much relocation space a run reserves, `GotWords` what each slot holds at any moment,
`GotLoader` which relocations it gets, and `GotLoaded` what a program finds in it once the module is loaded.

A `Loader` is anything that knows the load address, and for each dynamic symbol an address, a module, an offset
in that module's thread segment and the place of the segment for the thread; symbol 0 is the module itself. What
each relocation type does with these follows include/elf/arc-reloc.def where it has a formula (GLOB_DAT is S,
RELATIVE is B + A on the word in place, DTPOFF the offset in the segment on the word in place) and otherwise the
meaning of the names: DTPMOD is the module, TPOFF the place of the segment plus the offset plus A. With
these meanings the theorems about loaded slots find three places where the source gives a wrong value: an IE slot of a symbol that binds
inside a shared object but has a dynamic index gets its offset twice, since it is both stored and passed on as
addend (`GotLoaded.IeExactly`); a GOT_NORMAL slot of a local symbol in a position-independent link gets no
relocation (`GotLoader.SilentExactly`, `GotLoaded.NormalExactly`); and a link at fixed addresses puts the
address of a symbol into the first slot of its list, even if that is a thread slot (`GotWords.PutWord`).

## Model

| member | source | states |
|---|---|---|
| Uart.SetBitGet | top.cc:185-187 | Setting bit k of a byte changes that bit and no other. |
| Uart.Shifts | top.cc:155-186 | The shift expressions of transmitter and receiver pick and set the bit with that number. |
| Uart.SameBits | top.cc:183-187 | A byte is determined by its eight bits, so eight right samples are the right byte. |
| Uart.UARTBitDriver.constructor | top.cc:114-123 | Both halves start idle, the previous line level high, the period the truncated quotient of clock and baud rate. |
| Uart.UARTBitDriver.Tick | top.cc:126-128 | The counter advances by one modulo 2^64; nothing else changes. |
| Uart.UARTBitDriver.StartTx | top.cc:131-137 | Accepted exactly when idle; a refused request leaves the byte being sent alone. |
| Uart.UARTBitDriver.GetTxLine | top.cc:140-158 | Refines the transmitter step: new state and level on the line. |
| Uart.UARTBitDriver.SampleRx | top.cc:161-211 | Refines the receiver step: edge, middle sample with both aborts, advance, delivery. |
| Uart.UARTBitDriver.IsIdle | top.cc:213-215 | True exactly when no frame is being sent. |
| UartTransmit.FrameIs | top.cc:151-158 | Element 0 of a frame is low, elements 1 to 8 are the bits `(b >> (k - 1)) & 1`, all later ones high. |
| UartTransmit.Waveform | top.cc:131-158 | After an accepted byte the line at offset d is element d / P of start bit, eight data bits lowest first, stop bit; idle exactly from offset 10P on; any starting counter, wrap-around included. |
| UartTransmit.TxInSlot | top.cc:140-158 | At offset kP + e the transmitter is in slot k, which it entered at offset kP. |
| UartTransmit.TxDone | top.cc:148-150 | From offset 10P on the transmitter stays idle. |
| UartReceive.Session.PreviousLevel | top.cc:168 | The remembered level is that of the sample before, busy or idle. |
| UartReceive.Session.GatheredBits | top.cc:183-187 | Bit j of the byte gathered after m data slots is the line in the middle of slot j + 1 if j < m, else zero. |
| UartReceive.Session.InFrame | top.cc:161-211 | On any line, e ticks into slot k of a reception not aborted so far, the whole receiver state is determined by where the frame began and the levels at the slot middles. |
| UartReceive.Session.FrameDelivers | top.cc:161-211 | A frame with low start and high stop middle yields nothing for 10P ticks, then its eight middles, then idle. |
| UartReceive.Session.StartBitAborts | top.cc:175-182 | A start bit that is high in its middle yields no byte and returns to idle at that tick. |
| UartReceive.Session.StopBitAborts | top.cc:188-195 | A stop bit that is low in its middle yields no byte and returns to idle at that tick. |
| UartReceive.Session.Origin | top.cc:163-208 | Whenever the receiver is busy there is a falling edge, seen while idle, from which its slot and tick follow. |
| UartReceive.Session.Delivered | top.cc:161-211 | A byte is delivered at tick t if and only if a falling edge was seen while idle at t - 10P and the line was low and high in the middle of start and stop slot; bit j is the line in the middle of slot j + 1. |
| UartReceive.Session.LogIsDecode | top.cc:161-211 | Over any window of any line the bytes delivered, with their ticks, are those of the jumping reference decoder. |
| UartDrift.DriftTolerance | top.cc:140-211 | Receivers with period Pr >= 2, one for each byte, decode all 256 bytes of a sender with period Pt if and only if the middle of each receiver slot 0 to 8 lies in the same sender slot and the stop middle not before its slot. |
| UartDrift.Tolerated | top.cc:140-211 | Periods in tolerance decode each byte as the only output of ten receiver periods. |
| UartDrift.ReadsDecide | top.cc:161-211 | If in every slot the level read is the one meant, for all bytes, the periods are in tolerance: one-bit bytes expose each slot read wrongly. |
| UartDrift.Needed | top.cc:161-211 | If every byte decodes, the periods are in tolerance. |
| UartDrift.DecodeReads | top.cc:161-211 | A correct decode read, in each slot, a frame element of the right level. |
| UartStream.StreamTolerance | top.cc:126-211 | With frames sent without a pause, 10Pt + 1 ticks apart, a receiver delivers every message, all of it and nothing else, if and only if the periods are in tolerance and Pr <= Pt. |
| UartStream.KeepsUpReceives | top.cc:161-211 | In that case, frame after frame, the bytes delivered are the message, and nothing follows. |
| UartStream.NextFrame | top.cc:161-211 | In that case the receiver is idle again, the line high, before each falling edge between frames. |
| UartStream.StreamNeeded | top.cc:161-211 | If every message is delivered, at whatever time, the periods are as required: messages of one and two bytes show it. |
| UartStream.SlowReceiver | top.cc:163-208 | A receiver with the longer period is busy when the second frame begins, and loses the second of two bytes FF. |
| UartLoopback.RestingPass | top.cc:340-411 | From rest a pass delivers nothing, and puts both halves at the first tick of the offered byte's frame if there is one. |
| UartLoopback.SendingPass | top.cc:140-211 | Inside a slot a pass moves both halves on one tick and ignores offers. |
| UartLoopback.SlotPass | top.cc:140-211 | At the end of a slot both halves enter the next one in the same tick; after the stop bit the byte is delivered and both rest with the line high. |
| UartLoopback.PassKeepsLockstep | top.cc:340-411 | Every pass keeps the halves in step, and the bytes in flight plus the byte taken are the byte delivered plus the bytes in flight afterwards. |
| UartLoopback.Run.Loopback | top.cc:340-411 | For P >= 2 and any offers, accepted bytes are at all times the delivered ones followed by the one on the line. |
| UartLoopback.Run.FrameEnd | top.cc:340-411 | A byte accepted at rest in pass n arrives 10P passes later and leaves the link at rest. |
| UartLoopback.Run.Throughput | top.cc:340-411 | With a queue that is never empty the n-th byte arrives in pass n(10P + 1) - 1, and n whole frames deliver exactly n bytes: the ones at the head when the link was idle. |
| UartLoopback.BlindRun | top.cc:174 | With P = 1 no data slot is ever sampled at its middle. |
| UartLoopback.SingleByte | top.cc:114-215 | Runs from rest that are offered one byte each have that byte, and it alone, delivered after some number of passes, for every byte value, if and only if P >= 2. |
| UartLoopback.TooFast | top.cc:143-174 | With P = 0 or 1, FF is not what has been delivered after any number of passes. |
| HostFeed.LiveFrom | top.cc:358-363 | The loop ends at the first pass that reads Ctrl+D, or with the inputs. |
| HostFeed.Conservation | top.cc:334-386 | For all inputs, accepted bytes are the acknowledged ones, then the one presented, then the ring in order; the ring holds at most 255; nothing waits while nothing is presented. |
| HostFeed.Stable | top.cc:372-380 | A presented byte stays until the device acknowledges. |
| HostSerial.SerialPassConserves | top.cc:340-411 | One serial pass loses and invents no byte between ring, transmitter and receiver. |
| HostFeed.RefusedExactly | top.cc:364-371 | In any parallel run a host byte is refused if and only if 255 bytes are waiting: accepted, neither acknowledged nor presented. |
| HostSerial.SerialStarts | top.cc:364-386 | In one serial pass an idle transmitter takes the head of the ring, the byte just stored included; a busy one leaves the ring. |
| HostSerial.SerialRun.Conserved | top.cc:340-411 | In serial mode, for all inputs, accepted bytes are the received ones, then the one on the line, then the ring. |
| HostSerial.SerialRun.RefusedExactly | top.cc:364-371 | In any serial run a host byte is refused if and only if 255 bytes are waiting: accepted, neither received nor on the line. |
| HostSerial.SerialRun.ByteArrives | top.cc:340-411 | A byte that comes in pass n, at rest and with the ring empty, is received in pass n + 10P, and nothing between, whatever comes behind it. |
| HostSerial.SerialRun.Arrives | top.cc:340-411 | So is the head of a ring that is not empty. |
| HostSerial.SerialRun.FinishFrame | top.cc:340-411 | From any tick of any slot the frame on the line ends after the ticks that are left, and the ring is untouched meanwhile. |
| HostSerial.SerialRun.Drains | top.cc:340-411 | With h bytes on the line and in the ring, and no new ones for h(10P + 1) passes, all bytes accepted have been received by then, wherever in a frame the line was. |
| HostSerial.SerialRunExists | top.cc:340-411 | Every start and every list of inputs has such a run. |
| HostPort.RingEmpty | top.cc:336-377 | Equal indices mean an empty ring, and a ring never holds 256 bytes. |
| HostPort.HostLoop.constructor | top.cc:334-336 | The loop starts with an empty ring and no byte presented. |
| HostPort.HostLoop.Enqueue | top.cc:364-369 | A byte is appended behind those waiting; it is dropped exactly when 255 are waiting. |
| HostPort.HostLoop.Dequeue | top.cc:377-379 | The oldest byte leaves; the others keep their order, across the wrap of the index. |
| HostPort.HostLoop.Acknowledge | top.cc:372-380 | Refines the handshake: withdraw an acknowledged byte, present the next in the same pass. |
| HostPort.HostLoop.PassParallel | top.cc:358-380 | A pass refines store followed by handshake. |
| HostPort.HostLoop.RunParallel | top.cc:334-386 | The loop refines the run that Conservation is about, up to Ctrl+D. |
| HostPort.HostLoop.StartNext | top.cc:381-385 | The head of the ring leaves it exactly when an idle transmitter takes it. |
| HostPort.HostLoop.PassSerial | top.cc:340-411 | A pass over ring and driver objects refines the serial step. |
| HostPort.HostLoop.DriveLine | top.cc:381-411 | The rest of the pass after tick and host byte: the head of the ring goes to an idle transmitter, and both halves of the driver move on. |
| HostPort.HostLoop.RunSerial | top.cc:334-411 | The loop goes through the states of any run with its inputs, and receives what the run does, up to Ctrl+D. |
| HexText.ValueConcat | sim/libSimHelper.cc:116 | The value of two digit strings in a row is the first shifted by the length of the second plus the second. |
| HexText.ValueBound | sim/libSimHelper.cc:116 | n digits are less than 16^n. |
| HexText.ScanHex | sim/libSimHelper.cc:116 | A conversion yields a nonempty stretch of digits behind optional white space and prefix, or nothing. |
| HexText.PlainSpans | sim/libSimHelper.cc:103-155 | On a line of digits and white space the loader's character scan finds exactly the words of the line, without prefixes. |
| HexText.FirstWord | sim/libSimHelper.cc:93 | The conversion in a directive reads the first word behind the sign. |
| HexPrint.DigitValues | tools/binutils-2.41/bfd/verilog.c:71-77 | The sixteen digits in lower and in upper case have the values 0 to 15 in order, and are the digits printed. |
| HexPrint.DigitsOnly | sim/libSimHelper.cc:116 | No other character is a digit. |
| HexPrint.PrintedValue | sw/mnist-newlib/hex8tohex32.py:11-15 | Reading back what was printed gives the number, at every width. |
| HexPrint.PrintedWidth | sw/mnist-newlib/hex8tohex32.py:11-15 | A number that fits is printed with exactly the width asked for. |
| HexPrint.UpperValue | tools/binutils-2.41/bfd/verilog.c:71-77 | Reading back a number printed in upper case gives it, at every width. |
| HexPrint.UpperWidth | tools/binutils-2.41/bfd/verilog.c:170-204 | A number that fits is printed with exactly the width asked for, in upper-case digits only. |
| HexLines.CommentIgnored | sim/libSimHelper.cc:86-89 | A line that begins with `#`, `/` or a line end is as good as absent, wherever in a file it is. |
| HexLines.DataLineLoads | sim/libSimHelper.cc:101-157 | Any line that begins with none of `#`, `/`, `@` or a line end is read for numbers. |
| HexLines.SpacesOnly | sim/libSimHelper.cc:105 | The white space skipped by hand is blank, tab, CR and LF; the conversion skips vertical tab and form feed too. |
| HexLines.JunkSeparates | sim/libSimHelper.cc:116-155 | Behind digits, a character that belongs to no number separates numbers as white space does. |
| HexLines.ScansExactly | sim/libSimHelper.cc:93 | A conversion fails if and only if no digit, or prefix and digit, follows the white space. |
| HexLines.BadDirectiveExactly | sim/libSimHelper.cc:92-99 | A file is given up for an unreadable address if and only if some line that begins with `@`, reached without error, has no number behind it. |
| HexLines.DigitsField | sim/libSimHelper.cc:116-132 | A line of digits is one number: one byte up to two digits, two up to four, else four, of the lowest 32 bits of the value. |
| HexLines.PrefixField | sim/libSimHelper.cc:120-123 | A prefix 0x or 0X changes neither value nor width. |
| HexLines.NumberStored | sim/libSimHelper.cc:142-149 | A number that fits puts its bytes value mod 256, value / 256 mod 256 and so on at the current address on, and nothing else changes. |
| HexLines.NumberLineLoads | sim/libSimHelper.cc:103-149 | Loading a line of digits stores that number. |
| HexLoader.StoreField | sim/libSimHelper.cc:142-144 | The bytes of the value lowest first at the address, every other byte of the buffer unchanged. |
| HexLoader.StoreNumber | sim/libSimHelper.cc:134-149 | Bounds error, 32-bit wrap, store, current and highest address, as the loader step says. |
| HexLoader.LoadData | sim/libSimHelper.cc:101-157 | A data line stores its numbers in order until one does not fit; other characters are skipped. |
| HexLoader.ValidateAndLoad | sim/libSimHelper.cc:70-168 | The buffer is its old contents overlaid with the memory of the file, also on errors; the result is -1 or the highest address reached. |
| HexLoader.Init | sim/libSimHelper.cc:9-17 | Every byte of memory is the matching byte of the ebreak word. |
| HexLoader.CopyToSram | top.cc:312-318 | SRAM words that start below the loaded size are the little-endian words of memory; the others are unchanged. |
| HexTranslate.DirectiveEnds | sw/mnist-newlib/hex8tohex32.py:19-29 | An address more than four past the base ends the segment and starts one at the word boundary below it; any other leaves it pending, filled up to the address. |
| HexTranslate.StaysInStep | sw/mnist-newlib/hex8tohex32.py:17-31 | As long as no directive that keeps the segment goes back, the translator's position is that of the image after every record, and its base is aligned. |
| HexTranslate.StepAt | sw/mnist-newlib/hex8tohex32.py:17-31 | What one record does at any one address, from any state: a data byte at the translator's own position, a padding zero, or nothing. |
| HexTranslate.StepShows | sw/mnist-newlib/hex8tohex32.py:17-31 | At any address one record keeps the pending output equal to the image where it is not covered, and zero elsewhere; it covers what it pads and uncovers what it writes. |
| HexTranslate.OutputShows | sw/mnist-newlib/hex8tohex32.py:9-33 | At any address the output has the byte of the image, or zero where padding covers it after its last data, or zero or nothing where the image has none. |
| HexTranslate.SegmentsHaveData | sw/mnist-newlib/hex8tohex32.py:9-15 | No segment without data is ever written. |
| HexTranslate.Preserves | sw/mnist-newlib/hex8tohex32.py:9-33 | For ascending images whose segments share no word: every byte kept, zeros elsewhere, all segments word-aligned, whole words, disjoint and in order. |
| HexTranslate.SparedUncovered | sw/mnist-newlib/hex8tohex32.py:21-29 | In an ascending image whose directives spare earlier bytes, no nonzero byte is ever covered. |
| HexTranslate.UnsparedCovered | sw/mnist-newlib/hex8tohex32.py:21-26 | In an ascending image a byte one directive covers stays covered for good. |
| HexTranslate.PreservedExactly | sw/mnist-newlib/hex8tohex32.py:9-33 | Addresses may go back, as long as a directive that does ends the segment: the image is preserved if and only if no nonzero byte of it is covered, in front, between or behind segments, by padding later than its last data; all else written is zero. |
| HexTranslate.AscendingPreservedExactly | sw/mnist-newlib/hex8tohex32.py:9-33 | An ascending image is preserved if and only if no directive that ends a segment finds a nonzero byte at or after the start of its own word. |
| HexShapes.ShapePreservedExactly | sw/mnist-newlib/hex8tohex32.py:9-33 | Addresses in any order: all images with the same directives and the same numbers of bytes are preserved if and only if each address they define was last written in step, and neither padding nor a byte out of step came over it after that. |
| HexShapes.History.SoundAgrees | sw/mnist-newlib/hex8tohex32.py:17-31 | An address that is sound so far shows the byte of the image. |
| HexShapes.UnsoundLost | sw/mnist-newlib/hex8tohex32.py:17-31 | An address that is not sound loses its byte in the image of that shape that has a one there and zeros elsewhere. |
| HexShapes.AlikeSound | sw/mnist-newlib/hex8tohex32.py:17-31 | Whether an address is sound depends on addresses and lengths only. |
| HexImages.DataLineParses | tools/binutils-2.41/bfd/verilog.c:211-292 | A data line, two upper-case digits a byte, spaces between, CR LF behind, is read back as its bytes. |
| HexImages.AddressLineParses | tools/binutils-2.41/bfd/verilog.c:170-204 | An address line, eight upper-case digits, is read back as its address. |
| HexImages.ImageTextParses | tools/binutils-2.41/bfd/verilog.c:170-326 | Every byte image with 32-bit addresses has a text in objcopy's form that is read back as that image. |
| HexObjcopy.CollectedSorted | tools/binutils-2.41/bfd/verilog.c:115-167 | In whatever order contents are set, they are kept once each and by ascending address. |
| HexObjcopy.CollectedOrdered | tools/binutils-2.41/bfd/verilog.c:115-167 | Contents that share no byte are kept each behind the end of the one before. |
| HexObjcopy.LinesOfSixteen | tools/binutils-2.41/bfd/verilog.c:310-324 | Line n of a section has its bytes 16n to 16n + 15, the last line those that are left. |
| HexObjcopy.DataPlaced | tools/binutils-2.41/bfd/verilog.c:295-326 | Cutting data into lines of sixteen bytes puts it, whole and in order, at the position of the image. |
| HexObjcopy.ObjcopyParses | tools/binutils-2.41/bfd/verilog.c:295-347 | The text for any sections that fit is in the byte format and is read back as the records it was written for. |
| HexObjcopy.ObjcopyLoads | sim/libSimHelper.cc:70-168 | Loading the text gives exactly the bytes of the sections at their addresses, and fails if and only if there are none. |
| HexObjcopy.ObjcopyTranslatesExactly | sw/mnist-newlib/Makefile:19-23 | For sections in order, the translated text loads as their bytes if and only if no address that ends a segment finds a nonzero byte at or after the start of its own word; all else loaded is zero. |
| HexObjcopy.ObjcopyTranslates | sw/mnist-newlib/Makefile:19-23 | It does if no section starts in the word in which the one before it ends. |
| HexTranslator.Translator.constructor | sw/mnist-newlib/hex8tohex32.py:6-7 | The translator starts at address zero with nothing pending or printed. |
| HexTranslator.Translator.PadData | sw/mnist-newlib/hex8tohex32.py:12-13 | Zeros are appended up to the next multiple of four bytes and no further. |
| HexTranslator.Translator.PrintWords | sw/mnist-newlib/hex8tohex32.py:14-15 | Each four bytes become one line with the highest address first; nothing printed before changes. |
| HexTranslator.Translator.WriteData | sw/mnist-newlib/hex8tohex32.py:9-15 | The pending segment is printed, padded, or nothing is if it is empty. |
| HexTranslator.Translator.AlignFront | sw/mnist-newlib/hex8tohex32.py:22-26 | The base goes down to the word boundary, with a zero for each byte. |
| HexTranslator.Translator.FillTo | sw/mnist-newlib/hex8tohex32.py:28-29 | Zeros up to the address, none if it is not ahead. |
| HexTranslator.Translator.Line | sw/mnist-newlib/hex8tohex32.py:17-31 | A line that can be read moves the object as the translation step says; any other is reported. |
| HexTranslator.Translate | sw/mnist-newlib/hex8tohex32.py:17-33 | Succeeds exactly when every line can be read, and then prints the text of the translated records. |
| HexFormats.ByteLineParses | sw/mnist-newlib/hex8tohex32.py:17-31 | Every line of the byte format can be read by the translator, addresses within 32 bits. |
| HexFormats.ParsedPlain | sw/mnist-newlib/hex8tohex32.py:17-31 | Conversely a line the translator can read has nothing but digits and white space on it, behind the sign if it is a directive, which has one number. |
| HexFormats.LoadByteLine | sim/libSimHelper.cc:80-157 | On a byte line the loader does what the translator's reading of that line says. |
| HexFormats.LoadsBytes | sim/libSimHelper.cc:70-168 | A byte image that fits is loaded as the memory its records describe. |
| HexFormats.LoadDirectiveLine | sim/libSimHelper.cc:91-98 | A printed directive is read back as its address. |
| HexFormats.WordLineFields | sim/libSimHelper.cc:106-132 | A printed word line is scanned as one four-byte number, the little-endian value of the word. |
| HexFormats.JoinBytes | sim/libSimHelper.cc:142-144 | Storing the little-endian value of four bytes stores those bytes. |
| HexFormats.LoadWordLine | sim/libSimHelper.cc:101-157 | A printed word line stores the four bytes it was printed from. |
| HexFormats.LoadWordLines | sim/libSimHelper.cc:80-157 | n word lines store the 4n bytes they were printed from, in order. |
| HexFormats.LoadSegment | sim/libSimHelper.cc:80-157 | Round trip of one segment: loading its text stores its bytes at its base. |
| HexFormats.LoadsWords | sim/libSimHelper.cc:80-157 | Round trip of a whole output: loading the text of any segments stores exactly those segments. |
| HexFormats.LoadedTop | sim/libSimHelper.cc:147-149 | The highest address lies past every byte stored, and is zero exactly when nothing was. |
| HexBounds.WrapsExactly | sim/libSimHelper.cc:134-144 | The numbers of a line pass the 32-bit bounds check from outside memory if and only if the first one reaches address 2^32; later ones never do. |
| HexBounds.BeyondExactly | sim/libSimHelper.cc:134-139 | Any other line is refused if and only if its numbers end past the buffer, and passes if and only if they do not. |
| HexBounds.FileWraps | sim/libSimHelper.cc:80-157 | A file does so if and only if some data line begins, at the address reached there without error, with a number that reaches address 2^32. |
| HexBounds.LowFileStaysInside | sim/libSimHelper.cc:91-149 | A file whose directives stay below the last four addresses, 2^32 - 4 on, never stores outside memory. |
| HexBounds.TopAddressWraps | sim/libSimHelper.cc:91-149 | No smaller bound would do: a directive and one word store outside memory if and only if the directive names one of those four. |
| HexBounds.LastAddressWraps | sim/libSimHelper.cc:91-149 | A two-byte number at ffffffff does in the simulator's memory. |
| HexPipeline.BytesLoaded | sim/libSimHelper.cc:70-168 | Loading a byte image that fits gives its memory, and an error exactly when it is empty. |
| HexPipeline.WordsLoaded | sim/libSimHelper.cc:70-168 | Loading translated text gives the memory of its segments, and an error exactly when it is empty. |
| HexPipeline.TranslationLoadsTheSame | sw/mnist-newlib/hex8tohex32.py:9-33 | Text to text: loading the translation gives the byte that loading the original gives at each of its addresses, zero at every other address written, and no new error. |
| HexPipeline.TranslationLoadsTheSameExactly | sw/mnist-newlib/hex8tohex32.py:9-33 | Text to text, addresses in any order the translator keeps up with: the two loads agree if and only if no nonzero byte is covered by padding in the end; all else loaded is zero. |
| HexPipeline.AscendingLoadsTheSameExactly | sw/mnist-newlib/hex8tohex32.py:9-33 | For ascending byte texts the two loads agree if and only if no directive that ends a segment finds a nonzero byte at or after the start of its own word. |
| HexAnyOrder.AnyOrderLoadsTheSameExactly | sw/mnist-newlib/hex8tohex32.py:9-33 | Text to text, addresses in any order: for all byte texts of a shape that fits the memory the two loads agree if and only if every address of the shape is sound. |
| HexAnyOrder.ShapeLoadable | sw/mnist-newlib/hex8tohex32.py:9-33 | The memory an image and its translation take depends on the shape only. |
| HexAnyOrder.BackwardShape | sw/mnist-newlib/hex8tohex32.py:27-29 | The shape of a byte at 0, back to 0, and another byte is not sound. |
| HexPipeline.SharedWordLosesBytes | sw/mnist-newlib/hex8tohex32.py:20-26 | Six bytes at 0 and one at 6: bytes 4 and 5 are lost. |
| HexPipeline.BackPaddingLosesByte | sw/mnist-newlib/hex8tohex32.py:12-13 | Any twelve bytes at 0, then three at 8: the directive ends the segment, and the padding behind the second one erases byte 11. |
| HexPipeline.BackwardDirectiveMisplaces | sw/mnist-newlib/hex8tohex32.py:27-29 | A directive that goes back a little is ignored, and its data land at the wrong address. |
| HexPipeline.BackwardDirectiveUnnoticed | sw/mnist-newlib/hex8tohex32.py:27-29 | With equal bytes at the same addresses it does no harm: one image of a shape that is not sound may still survive. |
| HexPipeline.WholeWords | top.cc:312-318 | Translated segments cover each word of memory entirely or not at all. |
| HexPipeline.WordOfMemory | top.cc:312-318 | A covered word is its four bytes; an uncovered one is ebreak. |
| HexPipeline.Boot | top.cc:249-318 | Fill, load and copy: memory is ebreak overlaid with the file, SRAM below the loaded size its words. |
| HexPipeline.BootedWord | top.cc:312-318 | The word of booted memory at any word address is its four source bytes, zero where there is none, if some segment reaches it, and ebreak if none does. |
| HexPipeline.BootTranslated | top.cc:249-318 | From byte text to SRAM: after translation, fill, load and copy each SRAM word below the loaded size is that word, the others are untouched, and the size covers every byte written. |
| Simd.LoadedLanes8 | sw/mnist-newlib/benchmark_wide_vec.c:27-48 | A vector load at element i of an int8 array, seen as eight lanes, is elements i to i + 7. |
| Simd.LoadedLanes16 | sw/mnist-newlib/benchmark_mnist_sew.c:136-155 | The same for four int16 lanes at byte offset 2i. |
| Simd.LoadedLanes32 | sw/mnist-newlib/benchmark_mnist_sew.c:136-162 | The same for two int32 lanes at byte offset 4i. |
| Simd.Signed32Bytes | sw/mnist-newlib/benchmark_mnist_sew.c:24-29 | A 32-bit element is recovered from its four bytes with its sign. |
| Simd.PackedLanes | sw/mnist-newlib/benchmark_pvmac.c:14-19 | The four signed lanes of a packed word are the bytes packed, in order. |
| Simd.LoadedWord | sw/mnist-newlib/benchmark_mnist_sew.c:107-108 | A 32-bit load from an int8 array is the word pack4 builds. |
| Simd.DotOneHot | sw/mnist-newlib/benchmark_mnist_sew.c:70-74 | With one input that is not zero the sum of products is that input times its weight. |
| Simd.DotAdds | sw/mnist-newlib/benchmark_mnist_sew.c:70-74 | The sum of products of added inputs is the sum of the two. |
| Simd.ChunkDot | sw/mnist-newlib/benchmark_mnist_sew.c:168-172 | Adding the lane products of a chunk extends the dot product by that many elements. |
| Mlp.ClampNearest | sw/mnist-newlib/benchmark_mnist_sew.c:56-60 | The activation is the nearest element in [0, 127], in [0, 32767], and of those not negative. |
| Mlp.FirstMaxUnique | sw/mnist-newlib/benchmark_mnist_sew.c:84-88 | There is only one first position of the maximum, so the returned class is determined, ties included. |
| Mlp.ForwardUnique | sw/mnist-newlib/benchmark_mnist_sew.c:65-264 | Two passes over the same data at one width have the same hidden values, outputs and class. |
| Mlp.DotBound | sw/mnist-newlib/benchmark_mnist_sew.c:66-73 | A sum of n products is bounded by n times the bounds of its factors. |
| Mlp.ByteLayerExact | sw/mnist-newlib/benchmark_mnist_sew.c:65-73 | An int8 layer-1 accumulator is the exact sum, at most 784 * 2^14 in magnitude at every point of the loop: nothing wraps. |
| Mlp.HalfLayerExact | sw/mnist-newlib/benchmark_mnist_sew.c:212-221 | No layer-2 sum on 16-bit elements leaves 32 bits, at any point of the loop. |
| Mlp.WideLayerExactly | sw/mnist-newlib/benchmark_mnist_sew.c:248-257 | No layer-2 sum on 32-bit elements leaves 32 bits at any point of the loop, whatever the int8 weights, if and only if hidden values stay within 2^19. |
| MlpWidths.WidthsAgree | sw/mnist-newlib/benchmark_mnist_sew.c:164-264 | Hidden values of a narrower pass are those of a wider one cut off at its maximum; if no layer-1 sum exceeds 127 the same holds of the outputs, classes do not decrease with width, and the widest one attains the maximum of the others. |
| MlpWidths.RowsAgreeExactly | sw/mnist-newlib/benchmark_mnist_sew.c:176-257 | For hidden values of two widths: every row of int8 weights gives a narrow output that is the wide one cut off if and only if each value the narrow pass cuts off equals every positive value, and the wide values add up to at most 2^24. |
| MlpWidths.WidthsAgreeExactly | sw/mnist-newlib/benchmark_mnist_sew.c:164-264 | The same for networks: an input and a first layer give cut-off outputs for every second layer if and only if that holds of the wide hidden values. |
| MlpWidths.ByteHalfAgreeExactly | sw/mnist-newlib/benchmark_mnist_sew.c:164-228 | Between 8 and 16 bits the condition on equal values alone decides. |
| MlpWidths.OverflowDisagrees | sw/mnist-newlib/benchmark_mnist_sew.c:248-257 | Equal values that add up to more than 2^24 have a row whose 32-bit sum wraps from below to a positive output. |
| MlpWidths.LargeSumsDisagree | sw/mnist-newlib/benchmark_mnist_sew.c:164-228 | A network of the real shapes on which the 8-bit pass returns class 1 and the 16-bit pass class 0, with outputs that are not cut-offs. |
| MlpWidths.WideSumsOverflow | sw/mnist-newlib/benchmark_mnist_sew.c:236-264 | A network of the real shapes whose hidden values in the 32-bit pass are all 2^19 + 1: negative sums come out as large outputs, and the class returned has a negative sum. |
| MlpKernels.AddChunk | sw/mnist-newlib/benchmark_mnist_sew.c:168-172 | One wrapped accumulation of a chunk keeps the accumulator the wrapped sum so far. |
| MlpKernels.ChunkB | sw/mnist-newlib/benchmark_mnist_sew.c:168-172 | Two 8-byte loads and VMAC.B take the 32-bit sum of the first i products of two int8 arrays to that of the first i + 8. |
| MlpKernels.ChunkH | sw/mnist-newlib/benchmark_mnist_sew.c:204-208 | Loads at byte offset 2i and VMAC.H take the sum of the first i products of two int16 arrays to that of the first i + 4, wrapping included. |
| MlpKernels.ChunkW | sw/mnist-newlib/benchmark_mnist_sew.c:240-244 | Loads at byte offset 4i and VMAC.W take the sum of the first i products of two int32 arrays to that of the first i + 2, wrapping included. |
| MlpKernels.NeuronScalar | sw/mnist-newlib/benchmark_mnist_sew.c:67-71 | The scalar loop computes the 32-bit sum of products. |
| MlpKernels.NeuronPvmac | sw/mnist-newlib/benchmark_mnist_sew.c:104-110 | Packed loads and PVMAC compute the same sum. |
| MlpKernels.NeuronVmacB | sw/mnist-newlib/benchmark_mnist_sew.c:166-172 | Vector loads and VMAC.B compute the same sum. |
| MlpKernels.NeuronVmacH | sw/mnist-newlib/benchmark_mnist_sew.c:202-208 | Vector loads and VMAC.H compute the sum on 16-bit elements. |
| MlpKernels.NeuronVmacW | sw/mnist-newlib/benchmark_mnist_sew.c:238-244 | Vector loads and VMAC.W compute the wrapped sum on 32-bit elements. |
| MlpKernels.NeuronPack4 | sw/mnist-newlib/benchmark_pvmac.c:65-71 | Packing columns on the fly computes the sum over the transposed weights. |
| MlpKernels.VecMac8 | sw/mnist-newlib/benchmark_wide_vec.c:64-69 | Loading two temporaries and VMAC.B give the sum of their eight products. |
| MlpKernels.Gather8 | sw/mnist-newlib/benchmark_wide_vec.c:126-133 | The temporaries hold eight inputs and eight weights of column j. |
| MlpKernels.NeuronGather8 | sw/mnist-newlib/benchmark_wide_vec.c:120-137 | Gathering columns into temporaries computes the sum over the transposed weights. |
| MlpKernels.Argmax | sw/mnist-newlib/benchmark_mnist_sew.c:84-88 | The first position of the largest output. |
| MlpKernels.ArgmaxValue | sw/mnist-newlib/benchmark_wide_vec.c:159-168 | The variant that keeps the maximum finds the same position. |
| MlpForward.Transpose | sw/mnist-newlib/benchmark_mnist_sew.c:33-39 | All three packed copies of a matrix hold its transpose, sign-extended. |
| MlpForward.TransposedRows | sw/mnist-newlib/benchmark_mnist_sew.c:31-47 | The rows of a packed copy are the columns of the matrix. |
| MlpForward.Network.PrepareWeights | sw/mnist-newlib/benchmark_mnist_sew.c:31-47 | All six packed arrays hold the transposes. |
| MlpForward.Network.ForwardScalar | sw/mnist-newlib/benchmark_mnist_sew.c:65-89 | Hidden and output arrays and the class are those of the network over the packed weights. |
| MlpForward.Network.ForwardPvmac | sw/mnist-newlib/benchmark_mnist_sew.c:102-130 | The same, with PVMAC. |
| MlpForward.Network.ForwardVmacB | sw/mnist-newlib/benchmark_mnist_sew.c:164-192 | The same, with VMAC.B. |
| MlpForward.Network.ForwardVmacH | sw/mnist-newlib/benchmark_mnist_sew.c:200-228 | The network on 16-bit elements, saturating at 32767. |
| MlpForward.Network.ForwardVmacW | sw/mnist-newlib/benchmark_mnist_sew.c:236-264 | The network on 32-bit elements, negative sums cut to zero. |
| MlpForward.Network.ForwardPack4 | sw/mnist-newlib/benchmark_pvmac.c:63-94 | The network over untransposed weights, packed on the fly. |
| MlpForward.Network.ForwardGather8 | sw/mnist-newlib/benchmark_wide_vec.c:110-169 | The network over untransposed weights, gathered on the fly. |
| MlpForward.RunBytes | sw/mnist-newlib/benchmark_mnist_sew.c:269-315 | On the same buffers all five 8-bit passes leave identical hidden values, outputs and class. |
| MlpForward.RunWidths | sw/mnist-newlib/benchmark_mnist_sew.c:269-315 | The benchmark's sign-extended inputs make the three widths three passes over one input, as WidthsAgree needs. |
| FixedPoint.FlooredSum | sw/mnist-host/benchmark_int32_relu.c:145-147 | Flooring each of n products loses less than n units in all and never gains. |
| FixedPoint.SpreadIsNorm | sw/mnist-host/benchmark_int32_relu.c:167-169 | The spread of an input error is that error times the 1-norm of the weights. |
| FixedPoint.InputError | sw/mnist-host/benchmark_int32_relu.c:167-169 | Inputs off by at most e move a sum by no more than its spread, either way. |
| FixedPoint.OutputError | sw/mnist-host/benchmark_int32_relu.c:163-175 | A second-layer sum over rounded activations differs from the exact one by the spread, plus its own rounding on one side. |
| FixedPoint.SigmoidIsLinear | sw/mnist-newlib/benchmark_int32.c:61-77 | For every 32-bit x the activation is 32768 + floor(x / 4) cut to [0, 65536]: the guards at 5 never matter. |
| FixedPoint.SigmoidMonotone | sw/mnist-newlib/benchmark_int32.c:61-77 | The activation is monotone with values in [0, 65536]. |
| FixedPoint.SigmoidError | sw/mnist-newlib/benchmark_int32.c:61-77 | An accumulator at most 784 units low gives an activation less than 197 units low, never high. |
| FixedPoint.Margin | sw/mnist-host/benchmark_int32_relu.c:60-70 | A lead of more than twice the error decides the first maximum. |
| FixedPoint.UnitSumBound | sw/mnist-host/benchmark_int32_relu.c:145-147 | With inputs in [0, 1] a sum of n rounded products is at most n times the weight bound. |
| FixedPoint.WideSumBound | sw/mnist-host/benchmark_int32_relu.c:167-169 | The same for activations up to h and weights below 2^17. |
| FixedNets.LayerError | sw/mnist-host/benchmark_int32_relu.c:141-153 | A layer's sums are low by less than the number of inputs and never high. |
| FixedNets.HiddenRange | sw/mnist-host/benchmark_int32_relu.c:141-155 | With weights in range and pixels in [0, 1], first-layer sums fit 32 bits and activations are at most 785 * 2^15. |
| FixedNets.NarrowingIsLossless | sw/mnist-host/benchmark_int32_relu.c:141-175 | With weights in range and pixels in [0, 1], both casts from 64 to 32 bits keep the value, through both layers. |
| FixedNets.ReluLogitError | sw/mnist-host/benchmark_int32_relu.c:141-175 | Without range assumptions on weights, when nothing is cut off by narrowing: each logit is within 784 times the 1-norm of its weights of the exact network's, plus 32 on one side. |
| FixedNets.ReluLogitsNear | sw/mnist-host/benchmark_int32_relu.c:141-175 | With weights in range every logit is within 784 * 2 * 32 + 32 units of the exact network. |
| FixedNets.ReluMargin | sw/mnist-host/benchmark_int32_relu.c:141-183 | If the exact network's winner leads by more than twice that, it is the class returned. |
| FixedNets.SigmoidNoOverflow | sw/mnist-newlib/benchmark_int32.c:106-137 | For pixels in [0, 1], weights below 2^21 and biases below 2^28 no 32-bit sum of either layer overflows at any point of its loop. |
| FixedNets.SigmoidHiddenError | sw/mnist-newlib/benchmark_int32.c:106-121 | When no sum overflows, each activation is less than 197 units below the exact piecewise-linear one, never above. |
| FixedNets.SigmoidMargin | sw/mnist-newlib/benchmark_int32.c:106-144 | When no sum overflows, logits are within the bound the 1-norms give, and a lead of more than twice it decides the class. |
| FixedRun.WeightsOf | sw/mnist-host/benchmark_int32_relu.c:141-175 | The network of the tables: entry i of row j is entry j of row i of the table, and the biases are those of the tables. |
| FixedRun.WideSum | sw/mnist-host/benchmark_int32_relu.c:142-150 | A sum of up to 784 rounded products of any 32-bit values stays within 784 * 2^46. |
| FixedRun.Accumulate64 | sw/mnist-host/benchmark_int32_relu.c:142-150 | The 64-bit accumulator never wraps, for any 32-bit data. |
| FixedRun.Accumulate32 | sw/mnist-newlib/benchmark_int32.c:114-118 | The 32-bit accumulator, wrapping and narrowing at each step, ends as the exact sum reduced once. |
| FixedRun.PredictRelu | sw/mnist-host/benchmark_int32_relu.c:128-184 | The arrays hold the activations and logits of the specified network; the class is the first maximum. |
| FixedRun.PredictSigmoid | sw/mnist-newlib/benchmark_int32.c:99-145 | The same for the sigmoid network. |
| GotInvariant.TotalAppend | tools/binutils-2.41/bfd/arc-got.h:94-127 | A new entry adds its measure to the total over all lists. |
| GotInvariant.TotalSet | tools/binutils-2.41/bfd/arc-got.h:455-540 | A changed entry changes the total over all lists by the difference of its measures. |
| GotInvariant.AddRefShape | tools/binutils-2.41/bfd/arc-got.h:199-215 | The macro adds one word exactly when it succeeds, reserves relocation space in either case, leaves the symbol recorded, and cannot fail for a recorded symbol. |
| GotInvariant.AddRefExactly | tools/binutils-2.41/bfd/arc-got.h:199-215 | The macro succeeds if and only if the symbol is local, has an index, is forced local or its recording does not fail; 4 bytes then, and 12 of relocation space in either case. |
| GotInvariant.FillExactly | tools/binutils-2.41/bfd/arc-got.h:217-263 | A request succeeds if and only if an entry of the kind is there, or the kind is known and the symbol local, with index, forced local or recorded without failure; and all it changes in each case, space included. |
| GotInvariant.FillShape | tools/binutils-2.41/bfd/arc-got.h:217-263 | A request adds one entry with fresh words at the old end of the section and exactly the room its relocations need, or changes no entry and no word. |
| GotRuns.FillKeeps | tools/binutils-2.41/bfd/arc-got.h:217-263 | Every request, failed or not, keeps the invariant. |
| GotRuns.RelocsInside | tools/binutils-2.41/bfd/arc-got.h:455-540 | An entry emits no more relocations than its quota, at distinct words of its own. |
| GotRuns.EmitKeeps | tools/binutils-2.41/bfd/arc-got.h:455-540 | Emitting the relocations of an entry keeps the invariant. |
| GotRuns.PatchInside | tools/binutils-2.41/bfd/arc-got.h:308-453 | A patch lies in one of the entry's own words. |
| GotRuns.FixKeeps | tools/binutils-2.41/bfd/arc-got.h:308-453 | A relocation keeps the invariant, whether it finds its slot or not. |
| GotRuns.RunKeeps | tools/binutils-2.41/bfd/arc-got.h:199-558 | The invariant holds of every table of every run, in which the linker may also renumber, define or hide global symbols between the steps. |
| GotRuns.Slots | tools/binutils-2.41/bfd/arc-got.h:79-263 | After any run each list has at most one entry of a kind, all entries of all lists own disjoint ranges inside the section, and its growth is exactly the sum of their sizes. |
| GotRuns.Relocations | tools/binutils-2.41/bfd/arc-got.h:308-558 | After any run relocations emitted fit the space reserved, no two relocations and no two patches share a word, and each lies in the range of an entry that is marked as created or processed. |
| GotRuns.HasExactly | tools/binutils-2.41/bfd/arc-got.h:79-263 | In any run a list has an entry of a known kind if and only if, at some request for it, its symbol was local, had an index, was forced local or could be recorded. |
| GotRuns.FailedRequestStrands | tools/binutils-2.41/bfd/elf32-arc.c:2100-2106 | When recording the symbol fails the first request for a slot, the relocation finds none. |
| GotRuns.FillTwice | tools/binutils-2.41/bfd/arc-got.h:217-263 | Repeating a request that succeeded changes nothing and succeeds. |
| GotRuns.EmitTwice | tools/binutils-2.41/bfd/arc-got.h:455-540 | Emitting an entry twice is emitting it once. |
| GotRuns.AlignUpIs | tools/binutils-2.41/bfd/arc-got.h:27-28 | The alignment is the least multiple of the power of two that is not below the address. |
| GotRuns.LocalIe | tools/binutils-2.41/bfd/arc-got.h:378-539 | Relocating a local symbol and then emitting its IE entry: the word patched is the addend of the one relocation. |
| GotSlots.RunLater | tools/binutils-2.41/bfd/arc-got.h:94-127 | In any run entries never move, change kind or lose a mark, and new ones lie past the old end of the section. |
| GotSlots.SlotPlaced | tools/binutils-2.41/bfd/arc-got.h:217-263 | The first request granted takes the words at the end of the section as it is then, 8 bytes for GD and 4 for others, and they are the slot's for good. |
| GotSlots.SlotFoundExactly | tools/binutils-2.41/bfd/arc-got.h:323-453 | In any run a relocation finds its slot if and only if a request for it was granted before, at the offset the section ended at then; otherwise it changes nothing and has no offset; for no slot and LE the offset is zero. |
| GotSlots.SpaceExactly | tools/binutils-2.41/bfd/arc-got.h:199-263 | In any run the relocation space is exactly 12 bytes for each relocation the entries may ask for, and 12 lost for each request refused. |
| GotWords.ProcessedExactly | tools/binutils-2.41/bfd/arc-got.h:323-451 | In any run a slot is processed if and only if some relocation for it found the symbol local, forced local, without dynamic sections, or binding inside a position-independent output. |
| GotWords.WordKept | tools/binutils-2.41/bfd/arc-got.h:323-558 | Only the first such relocation of a slot, and an address put at the head of its list, ever change its words. |
| GotWords.NormalWord | tools/binutils-2.41/bfd/arc-got.h:412-440 | From its first static relocation on a GOT_NORMAL slot holds symbol value plus section address mod 2^32, and what it held before for an undefined weak symbol, whatever operations follow. |
| GotWords.GdWords | tools/binutils-2.41/bfd/arc-got.h:341-376 | From then on the second word of a GD slot is the symbol's offset in the thread segment if it is local, forced local or there are no dynamic sections, else what the section began with, as the first word always. |
| GotWords.IeWord | tools/binutils-2.41/bfd/arc-got.h:378-410 | From then on an IE slot holds the symbol's offset in the thread segment, plus 8 aligned up if there are no dynamic sections. |
| GotWords.UnresolvedWord | tools/binutils-2.41/bfd/arc-got.h:329-339 | A slot without static relocation holds what the section began with. |
| GotWords.PutWord | tools/binutils-2.41/bfd/elf32-arc.c:1666-1683 | An address put at the head of a list lasts, whatever kind of slot is there, unless a first static relocation of that slot follows. |
| GotLoader.EmitExactly | tools/binutils-2.41/bfd/arc-got.h:455-540 | The relocations of an entry by kind, with types, places, symbols and addends; none the second time. |
| GotLoader.SilentExactly | tools/binutils-2.41/bfd/arc-got.h:466-486 | An emission adds nothing if and only if the entry had its turn, there are no dynamic sections, or it is a GOT_NORMAL one of a local symbol or of one without index that is not both defined here and in a position-independent link. |
| GotLoader.CreatedExactly | tools/binutils-2.41/bfd/arc-got.h:455-540 | In any run a slot is marked as created if and only if its emission was asked for. |
| GotLoader.SlotLoaded | tools/binutils-2.41/bfd/arc-got.h:455-558 | What a loader makes of a word of a slot depends on the relocations of the slot's first emission only. |
| GotLoader.UnaskedLoaded | tools/binutils-2.41/bfd/arc-got.h:455-558 | A slot whose emission was never asked for is loaded as it was linked. |
| GotLoaded.GdLoaded | tools/binutils-2.41/bfd/arc-got.h:485-538 | After loading, the first word of a GD slot is the module of the symbol, the second its offset there on top of the stored word. |
| GotLoaded.IeLoaded | tools/binutils-2.41/bfd/arc-got.h:485-538 | After loading, an IE slot is the symbol's place for the thread plus the word stored when the relocation was emitted. |
| GotLoaded.NormalLoaded | tools/binutils-2.41/bfd/arc-got.h:466-484 | After loading, a GOT_NORMAL slot is the stored word moved by the load address, the address of the symbol, or the stored word, by the condition of the source. |
| GotLoaded.StaticLoaded | tools/binutils-2.41/bfd/elf32-arc.c:52-72 | Without dynamic sections every slot is loaded as it was linked. |
| GotLoaded.GdExactly | tools/binutils-2.41/bfd/arc-got.h:335-539 | A loaded GD slot gives the symbol's module; and its offset if and only if that is zero, or it was stored and the symbol has no index, or not stored and it has one. |
| GotLoaded.IeExactly | tools/binutils-2.41/bfd/arc-got.h:335-539 | A loaded IE slot gives the symbol's place for the thread if and only if the same holds of what was stored before the emission. |
| GotLoaded.NormalExactly | tools/binutils-2.41/bfd/arc-got.h:412-484 | A loaded GOT_NORMAL slot of a symbol defined here gives its address if and only if: with GLOB_DAT always; with RELATIVE if it was stored or zero; with no relocation if it was stored and the module is at its link address, or both are zero. |
| GotLoaded.WalkEmits | tools/binutils-2.41/bfd/arc-got.h:542-558 | The walk over a list continues the run, ends with the table of the walk, and leaves each slot of the list with its first emission, so that the above holds of it. |
| GotLists.GotList.EntryForType | tools/binutils-2.41/bfd/arc-got.h:79-92 | The first entry of the kind on the linked list, null exactly when there is none. |
| GotLists.GotList.NewEntry | tools/binutils-2.41/bfd/arc-got.h:94-127 | The node is linked at the end; all earlier nodes stay as they are; a kind already there is not added. |
| GotLists.GotList.MarkProcessed | tools/binutils-2.41/bfd/arc-got.h:308-453 | Only the flag of that node changes. |
| GotLists.GotList.MarkCreated | tools/binutils-2.41/bfd/arc-got.h:455-540 | Only the flag of that node changes. |
| GotLists.Linker.AddSymbolRef | tools/binutils-2.41/bfd/arc-got.h:199-215 | Refines the macro step on the link state. |
| GotLists.Linker.SetSymbol | tools/binutils-2.41/bfd/elflink.c:967-1020 | Renumbering a symbol changes that symbol and nothing else of the table. |
| GotLists.Linker.FillGotInfo | tools/binutils-2.41/bfd/arc-got.h:217-263 | Refines the request step: one heap list changes, every other list is untouched. |
| GotLists.Linker.FixGot | tools/binutils-2.41/bfd/arc-got.h:308-453 | Refines the patch step on heap and section contents, and returns the entry's offset, or none where the source reads through a null entry. |
| GotLists.Linker.PutAddress | tools/binutils-2.41/bfd/elf32-arc.c:1666-1683 | Refines the store into the slot at the head of a list; an empty list, which the source reads through a null pointer, leaves all as it is. |
| GotLists.Linker.AddRela | tools/binutils-2.41/bfd/elf32-arc.c:52-72 | One relocation is appended, or none without dynamic sections. |
| GotLists.Linker.CreateDynrelocs | tools/binutils-2.41/bfd/arc-got.h:455-540 | Refines the emission of one entry. |
| GotLists.Linker.CreateAllDynrelocs | tools/binutils-2.41/bfd/arc-got.h:542-558 | Walking the list emits every entry of it, in order. |

## Left out

UART and host loop:

- The device, the trace file, the pseudo terminal, the ebreak monitor thread, sleeping and statistics. Bytes and acknowledgements from outside are arbitrary inputs.
- The device's own transmitter: the parallel output it drives is only printed.

Hex images:

- HexText.ScanHex: does not read a sign in front of a number, which the conversion in the source does; images have none.
- HexLoader.StoreNumber: when the 32-bit bounds sum wraps to a small number the source stores outside the buffer, where the model has no memory; it ends with an error of its own, `Wrapped`. HexBounds says exactly when.
- HexLoader.LoadData: ends with the error `Wrapped` in the same case, where the source goes on.
- HexLoader.ValidateAndLoad: returns -1 in the same case, where the source returns a size.
- HexTranslator.Translator.Line: reports prefixed, signed and underscored numbers and bytes above FF as unreadable; the source reads them.
- HexTranslator.Translate: does so too, and does not keep what is printed before an unreadable line.
- HexTranslate.PreservedExactly: a single image in which a directive goes back without ending the segment may survive by equal bytes, as HexPipeline.BackwardDirectiveUnnoticed shows; for these the exact condition is over all images of a shape, HexShapes.ShapePreservedExactly.
- HexPipeline.TranslationLoadsTheSameExactly: likewise; HexAnyOrder.AnyOrderLoadsTheSameExactly covers them.
- Section flags of objcopy, data widths above one byte and addresses of more than 32 bits. The translator reads its text with line ends converted, which here is white space either way.
- Lines of more than 255 characters and file errors. A prefix without a digit behind it counts as no number; numbers beyond 32 bits are reduced modulo 2^32.
- HexPipeline.TranslationLoadsTheSame: byte texts are lines of plain digits, bytes of at most two and addresses of at most eight, the form objcopy writes.
- `load_elf` and `print_imem`, which call other programs.

SIMD network:

- The hardware: instruction meanings are taken from the comments in sw/mnist-newlib/benchmark_wide_vec.c:19-23 and 50. Signed overflow of an accumulator is modelled as wrap-around, as the target computes it.
- Weights are constants of arbitrary value. A load address is an array and a byte offset in it; alignment plays no part.
- Cycle counters, and the conversion of test images from floating point.
- `benchmark_int8_relu.c`, `benchmark_sew_compare.c`, `benchmark.c` and `matmul.c`, which repeat these kernels or are easy beside them.

Fixed point:

- Floating point: inputs are Q16.16 integers already, and weights are parameters. The range that FixedNets.NarrowingIsLossless asks for holds of sw/mnist-host/weights/mnist_weights_int32_relu.h, whose weights lie in [-29386, 27480] and [-106349, 74588] and whose biases in [-14114, 20434] and [-10643, 26073].
- FixedNets.SigmoidMargin: asks that no 32-bit sum overflows, since the source keeps these sums in 32 bits; FixedNets.SigmoidNoOverflow gives that for pixels in [0, 1] and weights in range, as those of sw/mnist-newlib/weights/mnist_weights_int32.h are (all of magnitude below 2^18).
- Printing and progress output.

Global offset table:

- Debug printing, the computation of symbol values (a parameter of a patch) and the hash table: recording a symbol is a step that yields an index, makes the symbol local, or fails.
- Lists shared between an indirect symbol and its target, and the allocation of the array of local lists.
- GotWords.PutWord: the value put is a parameter; that it is symbol value plus addend plus section address (elf32-arc.c:1673-1678) is left to the caller.
- Which addresses the section gets in the output: one patch is one word of the section's contents.
- LE accesses: a request reserves a slot for one as the source does, and relocating one returns zero.

Verilog sources, the newlib system-call stubs and all other parts of binutils.
