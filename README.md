# Blue Pill blinky firmware, modelled in Dafny

This project models a bare-metal STM32F103 ("Blue Pill") firmware. It has two parts.

- `startup.dfy`, module `Startup`: the reset handler that prepares RAM before `main()` runs.
  - It first copies the initialised-data template, which starts at `_etext` in flash, into `[_sdata, _edata)`.
  - It then writes zero to every word of `[_sbss, _ebss)`.
  - Memory is one `array<bv32>` of words. The linker symbols are word indices held in a `Layout` value.
  - Each loop is a method proved against a specification function that performs the loop one word at a time, in the C loop's order (`CopyForward`, `FillZero`).
  - Lemmas prove what these functions compute: the block-copy result, the zeroed range, the frame, the image after reset, and that reversed or equal bounds give no writes.
- `main.dfy`, module `Application`: `main()`. The three memory-mapped registers it writes (`RCC_APB2ENR`, `GPIOC_CRH`, `GPIOC_ODR`) are the `bv32` fields of the class `Registers`.
  - There is one method per read-modify-write step and one per pass of the blink loop.
  - `Run(blinks)` runs main's first `blinks` loop passes.
  - Each step is specified by a pure function whose contract is stated with bit masks.
  - For each single-register step (`WithGpiocClock`, `WithPc13Cleared`, `WithPc13ModeSet`, `WithPc13Output`, `WithLedToggled`), a lemma restates the result bit by bit, as an independent reference.
  - `Blinked`, the value of ODR after n loop passes, is characterised by the parity lemma `BlinkedParity` instead.

The model follows the C code:
- It copies and clears 32-bit words.
- `while (p < end)` makes a reversed range (`_edata < _sdata` or `_ebss < _sbss`) a no-op.
- Nothing forces the template and data regions apart. `CopyForward` therefore gives the pointer loop's result on any layout, overlapping ones included.
  - `CopyForwardInside` states when the copy is exact: the loop never reads a word it has already written.
  - `CopyForwardPeriodic` states what happens otherwise: if the template starts below the data region, the first `_sdata - _etext` template words repeat.

## Model

| member | source | states |
|---|---|---|
| Startup.Span | src/startup.c:24 | iteration count of `while (p < end)`: 0 exactly when end <= start, otherwise start + count == end |
| Startup.CopyForward | src/startup.c:19-26 | memory after the first n iterations of `*pDest++ = *pSrc++`, written in order; the memory size is unchanged |
| Startup.FillZero | src/startup.c:29-32 | memory after the first n iterations of `*pDest++ = 0`; the memory size is unchanged |
| Startup.ResetImage | src/startup.c:16-33 | the image Reset_Handler leaves behind: the data copy, then the BSS zeroing, over the same memory |
| Startup.CopyForwardOutside | src/startup.c:24-25 | the copy loop writes no word outside [_sdata, _sdata + n) |
| Startup.CopyForwardInside | src/startup.c:19-26 | if the data region starts at or below the template, or the template ends before it, word k of the data region equals the original template word k for every k < n |
| Startup.CopyForwardRepeats | src/startup.c:19-26 | if the template starts below the data region, destination word q periods of (dst - src) past word r (with r < dst - src) holds the original template word r |
| Startup.CopyForwardPeriodic | src/startup.c:19-26 | if the template starts below the data region, destination word k holds original template word k mod (dst - src): the first dst - src words repeat |
| Startup.CopyForwardOverlapRepeats | src/startup.c:24-25 | example: copying two words one place up turns [1, 2, 3] into [1, 1, 1] |
| Startup.FillZeroAt | src/startup.c:29-32 | after the zero loop, every word in [_sbss, _sbss + n) is 0, and every other word keeps its value |
| Startup.ResetImageAt | src/startup.c:22-32 | if the copy reads only template words (the data region starts at or below the template, or the template ends before it), each word after reset is: 0 in BSS (the zeroing runs last, so it wins on overlap), else the template word in the data region, else the old value |
| Startup.ResetImageData | src/startup.c:22-32 | if the copy reads only template words (the data region starts at or below the template, or the template ends before it) and the data and BSS regions are disjoint, every word of [_sdata, _edata) equals its template word after reset: the copied data survives the zero loop |
| Startup.ResetImageKeepsTemplate | src/startup.c:19-32 | a template that lies outside both written regions is left unchanged |
| Startup.ResetImageEmptyLayout | src/startup.c:24-30 | when _edata <= _sdata and _ebss <= _sbss, neither loop writes and memory is unchanged |
| Startup.CopyData | src/startup.c:19-26 | the copy loop terminates after exactly max(0, _edata - _sdata) writes and leaves memory equal to CopyForward of the old memory |
| Startup.ZeroBss | src/startup.c:29-32 | the zero loop terminates after exactly max(0, _ebss - _sbss) writes and leaves memory equal to FillZero of the old memory |
| Startup.ResetHandler | src/startup.c:16-36 | runs the copy and then the zeroing; the final memory is ResetImage of the initial memory |
| Application.WithGpiocClock | src/main.c:22 | IOPCEN (bit 4) of RCC_APB2ENR is 1, and every bit outside that mask is unchanged |
| Application.WithPc13Cleared | src/main.c:30 | bits 20..23 of GPIOC_CRH are 0, and every other bit is unchanged |
| Application.WithPc13ModeSet | src/main.c:31 | PC13's field is its old value OR 0b0010, and every other bit is unchanged |
| Application.WithPc13Output | src/main.c:30-31 | after clear-then-set, PC13's field is exactly 0b0010 whatever it held before, and every other bit is unchanged |
| Application.WithLedToggled | src/main.c:40 | bit 13 of GPIOC_ODR is inverted, and every other bit is unchanged |
| Application.WithGpiocClockBits | src/main.c:22 | bit by bit: bit 4 is 1, and bit i (i != 4) equals the old bit i |
| Application.WithGpiocClockIdempotent | src/main.c:22 | enabling the clock twice gives the same register value as enabling it once |
| Application.WithPc13ModeSetBits | src/main.c:31 | bit by bit: bit 21 is 1, and every other bit equals the old one |
| Application.WithPc13ClearedBits | src/main.c:30 | bit by bit: bits 20..23 are 0, and every other bit equals the old one |
| Application.WithPc13OutputBits | src/main.c:30-31 | bit by bit: bits 23..20 read 0010, and every other bit equals the old one |
| Application.WithPc13OutputIgnoresOldField | src/main.c:30-31 | two CRH values configure to the same result if and only if they agree outside bits 20..23 |
| Application.WithLedToggledBits | src/main.c:40 | bit by bit: bit 13 is inverted, and every other bit equals the old one |
| Application.WithLedToggledTwice | src/main.c:40 | two toggles restore GPIOC_ODR |
| Application.Blinked | src/main.c:33-44 | GPIOC_ODR after n passes of the loop, i.e. n toggles applied in turn; it only ever holds the start value or the start value with bit 13 inverted |
| Application.BlinkedParity | src/main.c:33-44 | after n loop passes, ODR equals its start value when n is even and the start value with bit 13 inverted when n is odd |
| Application.RegisterScenario | src/main.c:22-40 | 0x00000000 becomes 0x00000010 on clock enable; 0xFFFFFFFF becomes 0xFF2FFFFF on configuration; 0x00002000 and 0x00000000 swap on a toggle |
| Application.Registers.constructor | src/main.c:7-14 | the three registers start with the given values |
| Application.Registers.EnableClock | src/main.c:22 | only RCC_APB2ENR changes, and it becomes WithGpiocClock of its old value |
| Application.Registers.ClearPc13 | src/main.c:30 | only GPIOC_CRH changes, and its PC13 field is cleared |
| Application.Registers.SetPc13Mode | src/main.c:31 | only GPIOC_CRH changes, and 0b0010 is ORed into its PC13 field |
| Application.Registers.ConfigurePc13 | src/main.c:30-31 | only GPIOC_CRH changes, and PC13's field ends up as 0b0010 |
| Application.Registers.Blink | src/main.c:40 | only GPIOC_ODR changes, and its bit 13 is toggled |
| Application.Registers.Run | src/main.c:16-45 | after enable, configure and `blinks` loop passes: the clock is on, PC13 is an output, and ODR is toggled `blinks` times (it is restored when `blinks` is even) |

## Left out

- The busy-wait `for (volatile int i = 0; i < 100000; i++);` (src/main.c:43): it changes no register and exists only for timing, which the model cannot express. Its loop is bounded, so it terminates.
- The endless `while (1)` (src/main.c:33): `Registers.Run(blinks)` models its first `blinks` passes, because an infinite run has no final state to specify.
- `volatile` access and the peripheral addresses (src/main.c:7-14): registers are plain `bv32` fields. No hardware side effects and no reordering are modelled.
- The call `main()` at the end of `Reset_Handler` (src/startup.c:35): it transfers control and never returns. `Startup.ResetHandler` stops just before it.
- The vector table and `_estack` (src/startup.c:44-48): this is constant data placed by the linker and has no behaviour.
- The linker script and the real addresses: the symbols are word indices of `Layout`. Flash and RAM are one word-indexed memory.
- Startup.ResetHandler: requires every word the loops touch to be inside the modelled memory. The C code assumes this silently, since the linker places the sections.
