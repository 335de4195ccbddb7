# Rockchip GPIO driver: a Dafny model

This project models the register logic of a .NET GPIO driver for Rockchip SoCs, together with its two chip drivers (RK3399 and RK3328) and the NanoPi R2S board table. The driver reaches the SoC's registers through `mmap`ed windows onto physical memory. Here those windows are a map from (window, 32-bit word index) to a 32-bit word. A word is a sequence of 32 booleans, so every C# bit operation is written out bit by bit:
- `|`, `&` and `~` act bit by bit;
- `<<` and `>>` take the shift count modulo 32, as C# does for `int`;
- `/` and `%` truncate toward zero.

What is modelled:
- **Pin numbers** (module `PinCodec`): `MapPinNumber` turns bank, port letter and bit into `32 * bank + 8 * port + bit`, and `UnmapPinNumber` inverts it with C#'s truncating `/` and `%`.
- **Data register** (module `Rockchip`): `Write` and `Read` perform a read-modify-write and a test of one bit of the bank's data register (`GPIO_SWPORTA_DR`, offset 0x0000).
- **Pin table** (class `Rockchip.RockchipDriver`): the table of open pins with their `PinState` (current mode and "in use by the interrupt driver" flag), with `OpenPin`, `ClosePin`, `GetPinMode`, `IsPinModeSupported` and the flag update made by the event methods.
- **RK3399 `SetPinMode`** (module `Rk3399Driver`): it updates the pin's 2-bit pull field, in the PMU general register file (PMUGRF) for banks 0–1 and in the general register file (GRF) for banks 2–4. The two groups of banks use different codes. Then it updates the pin's bit of the bank's direction register (`GPIO_SWPORT_DDR`, offset 0x0004).
- **RK3328 `SetPinMode`** (module `Rk3328Driver`): it selects the GPIO function in the pin's iomux field, then updates the pull field, then the direction bit. An iomux field is 2 bits wide in one register per port, or 3 bits wide in a low/high register pair ("split" ports). A split port has two real offsets in the offset table; a `-1` second entry marks a one-register port with 2-bit fields.
- **Write-enable convention**: for pins ≥ 0, every GRF and PMUGRF store sets the write-enable bits in the upper 16 bits for the field it changes. For pins -7 .. -1, which the drivers accept, the bit offset `2 * PortNumber` is negative, so the enable mask lands at shift count (16 + 2 * PortNumber) mod 32, in the lower half; the model reproduces this (`Rk3399Driver.NegativePinEnableMask`).
- **NanoPi R2S** (module `NanoPiR2S`): the header-position table, `PinCount` and the conversion to logical numbers.

Each mode change is specified by a pure function (`PinModeWrites`) that returns the list of register stores, in the order the driver performs them, or the exception raised before any store. For the RK3328 the list carries the split-port iomux correction described under "## Findings". The imperative methods of `RockchipDriver` perform the reads, updates and stores step by step and are proved to produce exactly that list and the new pin table. The class keeps two invariants:
- `Valid`: only pins whose mode change succeeded are open.
- `DirectionsAgree`: each open pin's recorded mode matches its direction bit. Mode changes of negative pins can break it, and the methods promise it only for pins ≥ 0.

## Model

| member | source | states |
|---|---|---|
| PinCodec.MapPinNumber | src/RockchipGpioDriver/Drivers/Rockchip/RockchipDriver.cs:324-331 | succeeds exactly for port letters 'A' .. 'D', otherwise raises the bare exception |
| PinCodec.UnmapPinNumber | src/RockchipGpioDriver/Drivers/Rockchip/RockchipDriver.cs:333-340 | the three parts recombine to the pin for every int; for a pin ≥ 0 they are pin / 32, pin % 32 / 8 and pin % 8; for a negative pin the port and bit lie in -3 .. 0 and -7 .. 0 |
| PinCodec.MapPinNumberExamples | src/RockchipGpioDriver/Drivers/Rockchip/RockchipDriver.cs:326-331 | GPIO4_D5 is 157, GPIO4_C6 is 150, port 'E' fails |
| PinCodec.UnmapMapRoundTrip | src/RockchipGpioDriver/Drivers/Rockchip/RockchipDriver.cs:324-340 | unmapping a mapped pin (bank ≥ 0, bit 0 .. 7) gives back bank, port index and bit |
| PinCodec.MapUnmapRoundTrip | src/RockchipGpioDriver/Drivers/Rockchip/RockchipDriver.cs:324-340 | every pin ≥ 0 unmaps to a port 0 .. 3 and a bit 0 .. 7 that map back to the pin |
| PinCodec.UnmapInRange | src/RockchipGpioDriver/Drivers/Rockchip/RockchipDriver.cs:333-340 | the bank index is in range iff -32 < pin < 32 * banks; bank and port are both non-negative iff -8 < pin < 32 * banks |
| CSharpIntegers.TruncDiv | src/RockchipGpioDriver/Drivers/Rockchip/RockchipDriver.cs:337 | C# `/`: the remainder it leaves has the sign of the dividend and is smaller than the divisor |
| CSharpIntegers.TruncRem | src/RockchipGpioDriver/Drivers/Rockchip/RockchipDriver.cs:335 | C# `%`: dividend minus divisor times the truncated quotient; equals Dafny's `%` for a non-negative dividend |
| Words.ShiftCount | src/RockchipGpioDriver/Drivers/Rockchip/RockchipDriver.cs:141 | a C# `int` shift count is taken modulo 32: in 0 .. 31, equal to the count when it is already in range |
| Words.SetBit | src/RockchipGpioDriver/Drivers/Rockchip/RockchipDriver.cs:137-146 | or-ing `1 << k` sets, and and-ing `~(1 << k)` clears, exactly bit k mod 32 |
| Words.TestBit | src/RockchipGpioDriver/Drivers/Rockchip/RockchipDriver.cs:168 | `(w >> k) & 1` is bit k mod 32 of w |
| Words.FieldWrite | src/RockchipGpioDriver/Drivers/Rockchip/Rk3399Driver.cs:67-70 | a field store: the field reads the new value, its write-enable bits are set, every other bit is kept |
| Words.FieldUpdate | src/RockchipGpioDriver/Drivers/Rockchip/Rk3399Driver.cs:67-83 | the drivers' set-enable, clear-field, or-value sequence on a 0b11 or 0b111 mask is that field store whenever the field fits in the lower half |
| Words.FieldUpdateIsFieldWrite | src/RockchipGpioDriver/Drivers/Rockchip/Rk3328Driver.cs:120-134 | the bitwise expression equals the field store, bit by bit |
| Words.FieldUpdateOverwrite | src/RockchipGpioDriver/Drivers/Rockchip/Rk3328Driver.cs:117-134 | a second field update of the same field, at any offset, replaces the first |
| Words.FieldWriteLatches | src/RockchipGpioDriver/Drivers/Rockchip/Rk3399Driver.cs:68-69 | under the write-enable convention a field store takes effect whatever the register held |
| Registers.DirectionUpdate | src/RockchipGpioDriver/Drivers/Rockchip/Rk3399Driver.cs:108-121 | the direction bit is set for Output, cleared for the three input modes, and the word is unchanged for a mode outside the enumeration |
| Registers.DirectionUpdateOverwrite | src/RockchipGpioDriver/Drivers/Rockchip/Rk3328Driver.cs:65-78 | a later supported mode alone decides the direction bit |
| Registers.ApplyWritesLast | src/RockchipGpioDriver/Drivers/Rockchip/Rk3328Driver.cs:136-138 | a register holds the value of the last store to it |
| Registers.ApplyWritesUntouched | src/RockchipGpioDriver/Drivers/Rockchip/Rk3328Driver.cs:136-138 | a register no store targets keeps its value |
| Registers.ApplyWritesAppend | src/RockchipGpioDriver/Drivers/Rockchip/Rk3399Driver.cs:123-125 | performing two store lists in turn is performing their concatenation |
| Rk3399Driver.GrfOffsetsShape | src/RockchipGpioDriver/Drivers/Rockchip/Rk3399Driver.cs:32-39 | five banks, 20 pull offsets, -1 exactly for GPIO0 C and D, all others word aligned |
| Rk3399Driver.PullCode | src/RockchipGpioDriver/Drivers/Rockchip/Rk3399Driver.cs:63-106 | the pull code is at most 0b11 and is 0 exactly for no pull |
| Rk3399Driver.PullCodeRoundTrip | src/RockchipGpioDriver/Drivers/Rockchip/Rk3399Driver.cs:71-105 | banks 0–1 (PullDown 0b01, PullUp 0b11) and banks 2–4 (PullDown 0b10, PullUp 0b01) codes decode back to the resistor |
| Rk3399Driver.PinModeWrites | src/RockchipGpioDriver/Drivers/Rockchip/Rk3399Driver.cs:50-135 | succeeds exactly for -8 < pin < 160; otherwise IndexOutOfRange before any store |
| Rk3399Driver.ModeStoresPull | src/RockchipGpioDriver/Drivers/Rockchip/Rk3399Driver.cs:63-106 | the first store is the pin's pull field update, which decodes back to the mode's resistor |
| Rk3399Driver.PinModeWritesPull | src/RockchipGpioDriver/Drivers/Rockchip/Rk3399Driver.cs:63-106 | for pins 0 .. 159: the pull register is entry 4 * bank + port in PMUGRF (banks 0–1) or GRF (banks 2–4), and only the pin's field and its enable bits change |
| Rk3399Driver.PinModeWritesDirection | src/RockchipGpioDriver/Drivers/Rockchip/Rk3399Driver.cs:108-125 | the second store is the bank's direction word with bit pin % 32 set for Output, cleared for inputs |
| Rk3399Driver.PinModeWritesKeepData | src/RockchipGpioDriver/Drivers/Rockchip/Rk3399Driver.cs:123-125 | two stores, pull then direction; no data register is written |
| Rk3399Driver.ModeStoresBankRegisters | src/RockchipGpioDriver/Drivers/Rockchip/Rk3399Driver.cs:55-57 | only the pin's bank direction register changes among bank registers |
| Rk3399Driver.PinModeWritesBankRegisters | src/RockchipGpioDriver/Drivers/Rockchip/Rk3399Driver.cs:108-125 | after the stores, the pin's direction bit follows the mode; other direction and all data registers are unchanged |
| Rk3399Driver.GpioZeroPortsCDPullAtWordZero | src/RockchipGpioDriver/Drivers/Rockchip/Rk3399Driver.cs:34 | pins 16 .. 31 (table entry -1) store their pull update to PMUGRF word 0, since C# `-1 / 4` is 0 |
| Rk3399Driver.NegativePinEnableMask | src/RockchipGpioDriver/Drivers/Rockchip/Rk3399Driver.cs:61-79 | for pin -1 the pull store's write-enable bits land at bits 14 and 15, in the lower half, and bits 16 .. 29 keep the register's value |
| Rk3399Driver.ModeStoresOverwrite | src/RockchipGpioDriver/Drivers/Rockchip/Rk3399Driver.cs:50-135 | the stores of a second mode change do not depend on the first |
| Rk3399Driver.ModeStoresLastWins | src/RockchipGpioDriver/Drivers/Rockchip/Rk3399Driver.cs:50-135 | two mode changes leave the registers as the second alone |
| Rk3399Driver.LastModeWins | src/RockchipGpioDriver/Drivers/Rockchip/Rk3399Driver.cs:50-135 | the same for every accepted pin |
| Rk3328Driver.SplitPorts | src/RockchipGpioDriver/Drivers/Rockchip/Rk3328Driver.cs:35-44 | the split iomux ports are exactly GPIO2 B, C and GPIO3 A, B |
| Rk3328Driver.TablesShape | src/RockchipGpioDriver/Drivers/Rockchip/Rk3328Driver.cs:19-44 | 4 banks, 16 pull and 32 iomux offsets, every even iomux entry present, iomux below 0x100 and pull from 0x100 on, all word aligned |
| Rk3328Driver.IomuxBelowPull | src/RockchipGpioDriver/Drivers/Rockchip/Rk3328Driver.cs:83-118 | no register is both an iomux and a pull register |
| Rk3328Driver.IomuxAsWrittenMissesHighPins | src/RockchipGpioDriver/Drivers/Rockchip/Rk3328Driver.cs:96-113 | as written, pins 5 .. 7 of a split port lose the first write-enable bit of their field; pins 0 .. 4 are unaffected |
| Rk3328Driver.IomuxAsWrittenExample | src/RockchipGpioDriver/Drivers/Rockchip/Rk3328Driver.cs:96-113 | pin 77 (GPIO2_B5) with function 1 selected keeps function 1 after the store as written, and gets GPIO with the corrected offset |
| Rk3328Driver.IomuxCorrectedPins | src/RockchipGpioDriver/Drivers/Rockchip/Rk3328Driver.cs:94-114 | the corrected and the as-written iomux offsets disagree for exactly the 12 pins 77-79, 85-87, 101-103 and 109-111; every other accepted pin gets the same iomux word |
| Rk3328Driver.PullCode | src/RockchipGpioDriver/Drivers/Rockchip/Rk3328Driver.cs:117-134 | the pull code is at most 0b11 and is 0 exactly for no pull |
| Rk3328Driver.PullCodeRoundTrip | src/RockchipGpioDriver/Drivers/Rockchip/Rk3328Driver.cs:124-134 | PullDown 0b10 and PullUp 0b01 decode back |
| Rk3328Driver.PinModeWrites | src/RockchipGpioDriver/Drivers/Rockchip/Rk3328Driver.cs:55-148 | succeeds exactly for -8 < pin < 128; a bank outside the list raises ArgumentOutOfRange, a negative iomux index raises IndexOutOfRange |
| Rk3328Driver.ModeStoresIomux | src/RockchipGpioDriver/Drivers/Rockchip/Rk3328Driver.cs:83-114 | the first store clears the pin's 2-bit field, or its 3-bit field in the low/high register of a split port, with its enable bits set and all else kept |
| Rk3328Driver.ModeStoresPull | src/RockchipGpioDriver/Drivers/Rockchip/Rk3328Driver.cs:117-134 | the second store is the pin's pull field update, which decodes back to the mode's resistor |
| Rk3328Driver.PinModeWritesIomux | src/RockchipGpioDriver/Drivers/Rockchip/Rk3328Driver.cs:83-114 | for pins 0 .. 127 the pin's iomux field reads 0 (GPIO) after the first store |
| Rk3328Driver.PinModeWritesPull | src/RockchipGpioDriver/Drivers/Rockchip/Rk3328Driver.cs:117-137 | for pins 0 .. 127 the pull register is entry 4 * bank + port and only the pin's field and enable bits change |
| Rk3328Driver.PinModeWritesDirection | src/RockchipGpioDriver/Drivers/Rockchip/Rk3328Driver.cs:62-78 | the third store is the bank's direction word with bit pin % 32 set for Output, cleared for inputs |
| Rk3328Driver.ModeStoresDistinct | src/RockchipGpioDriver/Drivers/Rockchip/Rk3328Driver.cs:136-138 | the iomux, pull and direction registers are distinct |
| Rk3328Driver.ModeStoresBankRegisters | src/RockchipGpioDriver/Drivers/Rockchip/Rk3328Driver.cs:62-63 | only the pin's bank direction register changes among bank registers |
| Rk3328Driver.PinModeWritesBankRegisters | src/RockchipGpioDriver/Drivers/Rockchip/Rk3328Driver.cs:62-78 | after the stores, the pin's direction bit follows the mode; other direction and all data registers are unchanged |
| Rk3328Driver.PinModeWritesKeepData | src/RockchipGpioDriver/Drivers/Rockchip/Rk3328Driver.cs:136-138 | three stores, iomux and pull in the GRF, then direction; no data register is written |
| Rk3328Driver.IomuxValueOverwrite | src/RockchipGpioDriver/Drivers/Rockchip/Rk3328Driver.cs:83-114 | selecting GPIO twice is selecting it once |
| Rk3328Driver.ModeStoresOverwrite | src/RockchipGpioDriver/Drivers/Rockchip/Rk3328Driver.cs:55-148 | the stores of a second mode change do not depend on the first |
| Rk3328Driver.ModeStoresLastWins | src/RockchipGpioDriver/Drivers/Rockchip/Rk3328Driver.cs:55-148 | two mode changes leave the registers as the second alone |
| Rk3328Driver.LastModeWins | src/RockchipGpioDriver/Drivers/Rockchip/Rk3328Driver.cs:55-148 | the same for every accepted pin |
| Rockchip.RecordMode | src/RockchipGpioDriver/Drivers/Rockchip/Rk3399Driver.cs:127-134 | the pin enters the table or takes the new mode, keeping its interrupt flag (clear for a new entry); other entries are unchanged |
| Rockchip.IsPinModeSupported | src/RockchipGpioDriver/Drivers/Rockchip/RockchipDriver.cs:234-246 | true exactly for Input, InputPullDown, InputPullUp and Output |
| Rockchip.WriteStores | src/RockchipGpioDriver/Drivers/Rockchip/RockchipDriver.cs:126-149 | one store to the bank's data register for -32 < pin < 32 * banks, otherwise IndexOutOfRange |
| Rockchip.ReadValue | src/RockchipGpioDriver/Drivers/Rockchip/RockchipDriver.cs:156-169 | a value for -32 < pin < 32 * banks, otherwise IndexOutOfRange |
| Rockchip.ModeWrites | src/RockchipGpioDriver/Drivers/Rockchip/RockchipDriver.cs:114-119 | the SoC's mode change succeeds exactly for -8 < pin < 32 * banks |
| Rockchip.WriteSetsOneBit | src/RockchipGpioDriver/Drivers/Rockchip/RockchipDriver.cs:137-148 | writing High sets and Low clears exactly bit pin % 32 of the data word; the other 31 bits are unchanged |
| Rockchip.ReadTestsOneBit | src/RockchipGpioDriver/Drivers/Rockchip/RockchipDriver.cs:166-168 | Read is High iff bit pin % 32 of the data word is set |
| Rockchip.ReadAfterWrite | src/RockchipGpioDriver/Drivers/Rockchip/RockchipDriver.cs:126-169 | Read after Write(v) of the same pin returns v |
| Rockchip.WriteKeepsOtherPins | src/RockchipGpioDriver/Drivers/Rockchip/RockchipDriver.cs:137-148 | for pins ≥ 0, a Write of one pin does not change what another pin ≥ 0 reads (negative pins alias, see Rockchip.NegativePinAliases) |
| Rockchip.NegativePinAliases | src/RockchipGpioDriver/Drivers/Rockchip/RockchipDriver.cs:141 | pins -31 .. -1 write and read the same bit as pin 32 + pin |
| Rockchip.ModeWritesRegisters | src/RockchipGpioDriver/Drivers/Rockchip/Rk3328Driver.cs:62-78 | for pins ≥ 0, a mode change moves only the pin's direction bit among bank registers and no data register |
| Rockchip.ModeWritesKeepData | src/RockchipGpioDriver/Drivers/Rockchip/RockchipDriver.cs:114-119 | a mode change of any accepted pin, negative ones included, leaves every data register as it was |
| Rockchip.ModeKeepsValues | src/RockchipGpioDriver/Drivers/Rockchip/RockchipDriver.cs:156-169 | a mode change of any accepted pin, negative ones included, never alters what any pin reads |
| Rockchip.ModeChangeKeepsDirections | src/RockchipGpioDriver/Drivers/Rockchip/Rk3399Driver.cs:108-134 | a recorded mode change of a pin ≥ 0 keeps every open pin's direction bit in agreement with its recorded mode |
| Rockchip.ModeChangeKeepsPin | src/RockchipGpioDriver/Drivers/Rockchip/Rk3328Driver.cs:62-78 | the same, for one open pin |
| Rockchip.WriteKeepsDirections | src/RockchipGpioDriver/Drivers/Rockchip/RockchipDriver.cs:126-149 | a data write keeps the agreement |
| Rockchip.RemoveKeepsDirections | src/RockchipGpioDriver/Drivers/Rockchip/RockchipDriver.cs:105 | removing a pin from the table keeps the agreement |
| Rockchip.CloseLeavesLowInput | src/RockchipGpioDriver/Drivers/Rockchip/RockchipDriver.cs:97-101 | closing an Output pin ≥ 0 leaves it reading Low with its direction bit at input |
| Rockchip.RockchipDriver.constructor | src/RockchipGpioDriver/Drivers/Rockchip/RockchipDriver.cs:57-61 | a driver for one SoC with no open pin |
| Rockchip.RockchipDriver.Write | src/RockchipGpioDriver/Drivers/Rockchip/RockchipDriver.cs:126-149 | performs exactly WriteStores, or raises its error with no store |
| Rockchip.RockchipDriver.Read | src/RockchipGpioDriver/Drivers/Rockchip/RockchipDriver.cs:156-169 | returns ReadValue of the current registers |
| Rockchip.RockchipDriver.StoreModeRk3399 | src/RockchipGpioDriver/Drivers/Rockchip/Rk3399Driver.cs:55-125 | the reads, updates and stores are exactly the RK3399 store list |
| Rockchip.RockchipDriver.SetPinModeRk3399 | src/RockchipGpioDriver/Drivers/Rockchip/Rk3399Driver.cs:50-135 | performs Rk3399Driver.PinModeWrites and records the mode, or raises its error with nothing changed |
| Rockchip.RockchipDriver.StoreModeRk3328 | src/RockchipGpioDriver/Drivers/Rockchip/Rk3328Driver.cs:62-138 | the reads, updates and stores are exactly the RK3328 store list, with the split-port iomux correction of "## Findings" |
| Rockchip.RockchipDriver.SetPinModeRk3328 | src/RockchipGpioDriver/Drivers/Rockchip/Rk3328Driver.cs:55-148 | performs Rk3328Driver.PinModeWrites and records the mode, or raises its error with nothing changed |
| Rockchip.RockchipDriver.SetPinMode | src/RockchipGpioDriver/Drivers/Rockchip/RockchipDriver.cs:114-119 | the SoC's mode change; keeps Valid, and keeps DirectionsAgree for pins ≥ 0 |
| Rockchip.RockchipDriver.OpenPin | src/RockchipGpioDriver/Drivers/Rockchip/RockchipDriver.cs:80-84 | sets the pin to Input and so enters it in the table |
| Rockchip.RockchipDriver.GetPinMode | src/RockchipGpioDriver/Drivers/Rockchip/RockchipDriver.cs:253-261 | the recorded mode of an open pin, InvalidOperation otherwise |
| Rockchip.RockchipDriver.MarkInUseByInterruptDriver | src/RockchipGpioDriver/Drivers/Rockchip/RockchipDriver.cs:177-179 | sets the open pin's interrupt flag, KeyNotFound for a pin not open; registers unchanged |
| Rockchip.RockchipDriver.ClosePin | src/RockchipGpioDriver/Drivers/Rockchip/RockchipDriver.cs:90-107 | an open Output pin is written Low then set to Input; the pin leaves the table; an absent pin changes nothing |
| NanoPiR2S.ConverterEntries | src/RockchipGpioDriver/Drivers/NanoPiR2S.cs:17-21 | 11 positions; 89, 88, 66, 100 and 102 at positions 3, 5, 7, 8 and 10, -1 elsewhere |
| NanoPiR2S.CountGpioIsSize | src/RockchipGpioDriver/Drivers/NanoPiR2S.cs:24 | counting entries other than -1 one by one gives the size of the set of GPIO positions |
| NanoPiR2S.PinCount | src/RockchipGpioDriver/Drivers/NanoPiR2S.cs:24 | the number of GPIO positions of the table |
| NanoPiR2S.PinCountIsFive | src/RockchipGpioDriver/Drivers/NanoPiR2S.cs:17-24 | the board has five header GPIOs |
| NanoPiR2S.Convert | src/RockchipGpioDriver/Drivers/NanoPiR2S.cs:27-32 | succeeds exactly at GPIO positions with the table entry, never -1; IndexOutOfRange outside the table, InvalidArgument at a -1 entry |
| NanoPiR2S.ConvertInjective | src/RockchipGpioDriver/Drivers/NanoPiR2S.cs:17-21 | distinct header positions convert to distinct pins |
| NanoPiR2S.ConvertedPinsOnRk3328 | src/RockchipGpioDriver/Drivers/NanoPiR2S.cs:19-20 | every header GPIO is in bank 2 or 3 with port 0 .. 3 and bit 0 .. 7, and the RK3328 mode change accepts it |

## Left out

- Mapping physical memory (`Initialize`, the GRF/PMUGRF initialisation, `Dispose`, `mmap`/`munmap`, the initialisation lock): the model starts from a register map and assumes the bank windows are mapped, so the bank list the RK3328 driver indexes has one entry per bank.
- Events and the SysFs fallback (`base.OpenPin`, `base.ClosePin`, callbacks, `WaitForEvent`): only the `InUseByInterruptDriver` flag update they begin with is modelled (`MarkInUseByInterruptDriver`); `ClosePin` does not model the SysFs close of a pin with that flag.
- `Thread.SpinWait(150)` between the RK3399 stores: timing only; the store order is kept.
- Physical addresses, `_mapMask` and pointer arithmetic: each register is a (window, word) pair, with the data register at bank offset 0x0000 and the direction register at 0x0004 as the source comments state. The data-register pointer arithmetic in `Write` and `Read` adds the bank's physical address to the mapped pointer; the model follows the comment rather than that sum.
- Rockchip.RockchipDriver.constructor: takes the SoC instead of the address tables of the generic public constructor; the generic driver with caller-supplied tables and its PinCount/ConvertPinNumberToLogicalNumberingScheme that always throw are not modelled.
- Registers.Peek: a word the model has no value for reads as 0; real registers have reset values from the SoC.
- Words.Latch: the memory records the stored word itself; the write-enable convention is only used to state the finding, not applied on every store.
- PinCodec.MapPinNumber: computes on unbounded integers; C# `int` overflow for huge bank numbers is not modelled.
- `IsPinModeSupported` of the RK3399 and RK3328 drivers (Rk3399Driver.cs:138-145, Rk3328Driver.cs:151-158) has the same meaning as the base one and is modelled by the single Rockchip.IsPinModeSupported.
- Rockchip.RockchipDriver.SetPinMode: agreement of recorded modes and direction bits is promised only for pins ≥ 0, because pins -7 .. -1 share direction bits with pins 25 .. 31 through the C# shift-count mask.
- `Rk3399Driver.Registers.cs`: an alternative struct view of the same registers: the driver's pointers have these struct types, but its fields are never accessed; the driver casts the pointers to `uint*` and indexes by offset. It also names pull registers for GPIO0 C and D (`GRF_GPIO0C_P` at 0x48 and `GRF_GPIO0D_P` at 0x4C), which the pull table (-1 for those ports), and so the driver, never uses.
- Rk3328Driver.PinModeWrites: uses the corrected iomux offset `3 * (PortNumber - 5)` for bits 5 .. 7 of a split port, not the `3 * PortNumber` the source writes (see "## Findings"). This concerns the 12 pins GPIO2_B5-7, GPIO2_C5-7, GPIO3_A5-7 and GPIO3_B5-7 (pins 77-79, 85-87, 101-103 and 109-111), among them header position 10 of the NanoPi R2S (pin 102, GPIO3_A6). The as-written store is kept as `Rk3328Driver.IomuxValueAsWritten`, and `Rk3328Driver.IomuxCorrectedPins` proves that these 12 pins are the only ones where the two differ.
- Rockchip.RockchipDriver.StoreModeRk3328: stores the corrected iomux word for the same 12 pins, and so do `SetPinModeRk3328`, `SetPinMode`, `OpenPin` and `ClosePin` on the RK3328.

## Findings

| source | as written | input that shows it | evidently intended | confidence | as-written member | corrected member |
|---|---|---|---|---|---|---|
| src/RockchipGpioDriver/Drivers/Rockchip/Rk3328Driver.cs:96-113 | in a split iomux port the 3-bit field offset is `3 * PortNumber` in the high register too, so for bits 5 .. 7 the write-enable mask lands at bits 31, 2 .. 4 or 5 .. 7 (shift counts 31, 34, 37 taken modulo 32) and the cleared field at bits 15 .. 17, 18 .. 20 or 21 .. 23 | pin 77 (GPIO2_B5) whose high iomux register (GRF 0x28) selects function 1: the store leaves enable bits 16 .. 18 clear, so the pin keeps function 1 | bits 5 .. 7 use offset `3 * (PortNumber - 5)` in the high register | not executed | Rk3328Driver.IomuxAsWrittenMissesHighPins | Rk3328Driver.ModeStoresIomux |
