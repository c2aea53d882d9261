# Vibrator and UFS diagnostics: a Dafny model

This project models two small pieces of sequential logic from a vendor
Android kernel tree and proves properties about them.

1. **The GPIO vibrator** (`drivers/leds/leds-qpnp-vibrator-gpio.c`).
   - The chip record holds `state`, `vib_play_ms`, `vib_enabled`, the
     selected pin configuration, the one-shot stop timer (idle, or armed for
     a number of milliseconds) and whether the worker is queued.
   - Every entry point is one atomic transition: the three sysfs stores
     (`duration`, `activate`, `state`), the two shows, the deferred worker,
     the hrtimer callback and the LED brightness callback.
   - The mutex, the hrtimer and the workqueue are not modelled as
     concurrency. An interleaving is the order in which events fire
     (`Vibrator.Run`).
2. **The Qualcomm UFS diagnostics** (`drivers/scsi/ufs/ufs-qcom-debugfs.c`).
   - debugfs side (`UfsDebugfs`): the `dbg_print_en` mask with its range
     check, the test-bus enable bit, and the `debug-regs` dump. The dump
     forces register printing on and then restores the mask. Also the
     test-bus `"MAJ,MIN"` configuration write: copy at most ten bytes, find a
     comma, `sscanf("%i,%i")`, a legality check, then narrowing to `u8`.
   - `/proc/bootdevice` side (`UfsBootDevice`): the boot device record with
     its `strlcpy` setters and accessors, the CID encoder, and the three
     health-descriptor shows.

`KernelLib` holds the kernel library behaviour these files rely on:
- errno values;
- C strings and `strnchr`;
- `kstrtouint` with base 0, including its radix prefixes and error order;
- the `%i` conversion of `vsscanf`;
- the `%u`, `%d`, `%x` and `%02x` renderings;
- 32-bit signed truncation.

These library routines are defined outside these two drivers, in the
kernel's `lib/kstrtox.c`, `lib/vsprintf.c`, `lib/string.c` and `fs/libfs.c`.
They are written from the kernel library's documented behaviour so that the parse and
error paths of the handlers exist in the model. `simple_write_to_buffer` at
offset 0 is modelled the same way, next to its one caller, as
`UfsDebugfs.CopyConfig`.

Bit masks are sets of bit positions: `|` is union, `& ~` is difference, and
"any bit in common" is a non-empty intersection. The mask constants
`UFS_QCOM_DBG_PRINT_ALL`, `UFS_QCOM_DBG_PRINT_TEST_BUS_EN` and
`UFS_QCOM_DBG_PRINT_REGS_EN` live in `ufs-qcom.h`, which is not part of this
model. They are therefore a `DbgMasks` parameter.

Values that come from calls this model cannot see are parameters:
- what `ufs_qcom_testbus_config` returns;
- the `ufs_qcom_testbus_cfg_is_ok` predicate;
- the remaining time `hrtimer_get_remaining` reports;
- the result of `ufshcd_read_health_desc`.

A NULL host is `None`.

The vibrator keeps two separate flags: `state`, which the worker acts on, and
`vib_enabled`, which only the LED brightness call sets and the `state`
attribute shows. The model keeps both.

## Model

| member | source | states |
|---|---|---|
| Vibrator.Probe | drivers/leds/leds-qpnp-vibrator-gpio.c:233-243 | A freshly probed chip is zero-filled with default pins, an idle timer and no queued work. Its play time is the 5000 ms default, and it satisfies the chip invariant. |
| Vibrator.ClampPlayMs | drivers/leds/leds-qpnp-vibrator-gpio.c:119-123 | The clamped play time lies in 50..15000 ms. It is the value in that range nearest to the request, and a request already in range is kept. |
| Vibrator.StoreDuration | drivers/leds/leds-qpnp-vibrator-gpio.c:101-130 | A parse failure returns the negative errno and changes nothing. A value of 0 returns the byte count and changes nothing. Any other value returns the count and stores exactly the clamped value; the timer, state and pins are untouched. The invariant is preserved. |
| Vibrator.StoreActivate | drivers/leds/leds-qpnp-vibrator-gpio.c:139-164 | A parse failure returns the negative errno and changes nothing. Values above 1 return the count and change nothing. A value of 0 or 1 cancels the timer, becomes `state` and queues the worker, leaving play time, `vib_enabled` and pins as they were. |
| Vibrator.StoreState | drivers/leds/leds-qpnp-vibrator-gpio.c:78-83 | Every write is accepted with the byte count as result and leaves the chip unchanged. |
| Vibrator.ShowState | drivers/leds/leds-qpnp-vibrator-gpio.c:68-76 | The text printed reads back through `kstrtouint` as 1 exactly when `vib_enabled` is set, and as 0 otherwise. |
| Vibrator.ShowDuration | drivers/leds/leds-qpnp-vibrator-gpio.c:85-99 | With the timer idle, the text reads back as 0. With it armed, it reads back as the remaining milliseconds, and a negative remainder prints with a leading '-'. |
| Vibrator.Work | drivers/leds/leds-qpnp-vibrator-gpio.c:42-56 | With `state` non-zero, the worker selects the active pins and arms the timer for the current play time. With `state` 0, it selects the default pins and leaves the timer alone. It clears the pending flag and changes nothing else. |
| Vibrator.TimerExpiry | drivers/leds/leds-qpnp-vibrator-gpio.c:58-66 | Expiry returns NORESTART, sets `state` to 0, leaves the timer idle and queues the worker. Pins, play time and `vib_enabled` are unchanged. |
| Vibrator.BrightnessSet | drivers/leds/leds-qpnp-vibrator-gpio.c:179-196 | A non-zero level selects the active pins and sets `vib_enabled`. Level 0 selects the default pins and clears it. State, timer, play time and queued work are untouched. |
| Vibrator.Fire | drivers/leds/leds-qpnp-vibrator-gpio.c:42-164 | Each event, fired when it can happen, keeps the chip invariant. |
| Vibrator.RunKeepsInv | drivers/leds/leds-qpnp-vibrator-gpio.c:119-126 | Any sequence of events from a chip satisfying the invariant ends in a chip satisfying it. |
| Vibrator.PlayTimeAlwaysInRange | drivers/leds/leds-qpnp-vibrator-gpio.c:243 | From probe on, after any events, the play time lies in 50..15000 ms and `state` is 0 or 1. |
| Vibrator.NoRearmWithoutActivate | drivers/leds/leds-qpnp-vibrator-gpio.c:47-65 | The stop timer is one-shot. Once `state` is 0 and the timer is idle, no sequence of events without an activate write arms it again or sets `state`. |
| Vibrator.ExpiryRevertsOnce | drivers/leds/leds-qpnp-vibrator-gpio.c:58-66 | Expiry followed by the worker leaves the default pins, an idle timer, `state` 0 and no queued work. A further worker event changes nothing. |
| Vibrator.ActivateStartsTimer | drivers/leds/leds-qpnp-vibrator-gpio.c:155-161 | Writing 1 and running the worker selects the active pins and re-arms the timer for the current play time, even when it was already armed. |
| Vibrator.DeactivateStops | drivers/leds/leds-qpnp-vibrator-gpio.c:155-161 | Writing 0 and running the worker selects the default pins and leaves the timer idle. |
| Vibrator.LastDurationWriteWins | drivers/leds/leds-qpnp-vibrator-gpio.c:125-127 | Of two serialised duration writes, the stored play time is the clamped value of the later non-zero one. |
| Vibrator.DurationWriteClampsText | drivers/leds/leds-qpnp-vibrator-gpio.c:111-123 | Writing the text "40\n" stores 50 ms, and "20000\n" stores 15000 ms. |
| KernelLib.KStrToUint | drivers/leds/leds-qpnp-vibrator-gpio.c:111-113 | A successful `kstrtouint` yields a value below 2^32. A failure is EINVAL or ERANGE, and an empty C string is EINVAL. |
| KernelLib.KStrToUintPlus | drivers/leds/leds-qpnp-vibrator-gpio.c:111 | One leading '+' is skipped and changes nothing. A second '+' is refused with EINVAL. |
| KernelLib.ParseUnsigned | drivers/leds/leds-qpnp-vibrator-gpio.c:111-113 | A successful `kstrtouint` yields a value below 2^32. A failure is EINVAL or ERANGE, and empty input is EINVAL. |
| KernelLib.KStrToUintDecimal | drivers/leds/leds-qpnp-vibrator-gpio.c:148-150 | The decimal rendering of any number, with or without a newline, reads back as that number when it fits 32 bits and as ERANGE otherwise. |
| KernelLib.KStrToUintHex | drivers/leds/leds-qpnp-vibrator-gpio.c:111-113 | The "0x"-prefixed hex rendering of any number, with a newline, reads back as that number when it fits 32 bits and as ERANGE otherwise. |
| KernelLib.HexNumberValue | drivers/leds/leds-qpnp-vibrator-gpio.c:111 | The hex digits of a number, read back in base 16, give the number. |
| KernelLib.FindChar | drivers/scsi/ufs/ufs-qcom-debugfs.c:150-151 | The character is found exactly when it occurs, and the result is the position of its first occurrence. |
| KernelLib.CStr | drivers/scsi/ufs/ufs-qcom-debugfs.c:148 | A buffer's C string is its prefix up to, and not including, the first NUL. |
| KernelLib.ScanIntPair | drivers/scsi/ufs/ufs-qcom-debugfs.c:158-163 | The pair matches exactly when the first conversion succeeds, a comma comes right after its number, and a second conversion succeeds after the comma. The pair is the two values those conversions read, each in the signed 32-bit range. |
| KernelLib.ScanIntPairNeedsComma | drivers/scsi/ufs/ufs-qcom-debugfs.c:158-163 | A decimal number followed by any character other than a comma that cannot extend it (a blank or ';', say) is refused, so the write fails. |
| KernelLib.ScanIntPairNeedsSecond | drivers/scsi/ufs/ufs-qcom-debugfs.c:158-163 | A decimal number and a comma followed by nothing, or by text that starts with neither a blank, a '-' nor a digit, is refused. |
| KernelLib.ScanIntNoNumber | drivers/scsi/ufs/ufs-qcom-debugfs.c:158 | A "%i" conversion fails on text that starts with neither a blank, a '-' nor a digit. |
| KernelLib.ScanIntPairDecimal | drivers/scsi/ufs/ufs-qcom-debugfs.c:158 | `sscanf("%i,%i")` reads two decimal numbers below 2^31 written as "A,B" back as (A, B). |
| KernelLib.ScanIntPairHex | drivers/scsi/ufs/ufs-qcom-debugfs.c:158 | `sscanf("%i,%i")` reads any two bytes written as "0xXY, 0xXY" back as (XY, XY), skipping the blank after the comma. |
| KernelLib.DecimalDigitsBound | drivers/scsi/ufs/ufs-qcom-debugfs.c:139-142 | A number printed in at most k decimal digits is below 10^k. |
| KernelLib.ToS32 | drivers/scsi/ufs/ufs-qcom-debugfs.c:133-134 | Storing into an `int` gives a value in the signed 32-bit range that is congruent to the input modulo 2^32, and keeps values already in range. |
| KernelLib.HexByte | drivers/scsi/ufs/ufs-qcom-debugfs.c:505 | "%02x" prints two hex digits whose values, read most significant first, give the byte back. |
| UfsDebugfs.ToU8 | drivers/scsi/ufs/ufs-qcom-debugfs.c:172-173 | The `(u8)` cast keeps the value modulo 256 and preserves values in 0..255. |
| UfsDebugfs.PrintEnRead | drivers/scsi/ufs/ufs-qcom-debugfs.c:39-48 | With no host it returns -EINVAL. Otherwise it returns the whole mask. |
| UfsDebugfs.PrintEnSet | drivers/scsi/ufs/ufs-qcom-debugfs.c:50-62 | With no host it returns -EINVAL. A value with any bit outside PRINT_ALL returns -EINVAL and leaves the host unchanged. Otherwise the mask becomes the value's low 32 bits and nothing else changes. |
| UfsDebugfs.PrintEnSetThenRead | drivers/scsi/ufs/ufs-qcom-debugfs.c:57-60 | A value within PRINT_ALL, once set, reads back exactly. |
| UfsDebugfs.TestBusEnRead | drivers/scsi/ufs/ufs-qcom-debugfs.c:69-80 | With no host it returns -EINVAL. Otherwise it reads 1 exactly when the mask shares a bit with TEST_BUS_EN, and 0 otherwise. |
| UfsDebugfs.TestBusEnSet | drivers/scsi/ufs/ufs-qcom-debugfs.c:82-102 | With no host it returns -EINVAL. A non-zero value adds TEST_BUS_EN and a zero value removes it. All other bits and the test-bus selection stay as they were, and the result is what the reconfiguration returns. |
| UfsDebugfs.TestBusEnSetThenRead | drivers/scsi/ufs/ufs-qcom-debugfs.c:77-93 | After an enable write, the read gives 1 exactly when the written value was non-zero. |
| UfsDebugfs.DbgRegsShow | drivers/scsi/ufs/ufs-qcom-debugfs.c:227-247 | During the dump REGS_EN is on and every other bit is as before. Afterwards all bits outside REGS_EN are as before. Afterwards REGS_EN is wholly set if any of its bits was set before, and wholly clear otherwise. The mask comes back unchanged exactly when REGS_EN was wholly set or wholly clear. |
| UfsDebugfs.DbgRegsShowRestores | drivers/scsi/ufs/ufs-qcom-debugfs.c:230-241 | For a single-bit REGS_EN, the dump leaves the host exactly as it found it. |
| UfsDebugfs.CopyConfig | drivers/scsi/ufs/ufs-qcom-debugfs.c:139-148 | The copy holds the first min(cnt, 10) readable user bytes. It fails with EFAULT exactly when bytes were asked for and none could be read. |
| UfsDebugfs.ParseTestBusCfg | drivers/scsi/ufs/ufs-qcom-debugfs.c:139-164 | It fails with EFAULT exactly when bytes were asked for and none could be read. Once the copy succeeds, every failure is EINVAL. The text is accepted exactly when it has a comma after its first character and `sscanf("%i,%i")` matches both numbers, and the pair returned is the one read. |
| UfsDebugfs.TestBusCfgWrite | drivers/scsi/ufs/ufs-qcom-debugfs.c:124-193 | A parse failure returns its negative errno with the host unchanged, and an illegal pair returns -EPERM unchanged. An accepted pair stores the low 8 bits of each number and returns `cnt` unless the reconfiguration fails. The host changes only after a successful parse. |
| UfsDebugfs.TestBusCfgReadsTenChars | drivers/scsi/ufs/ufs-qcom-debugfs.c:139-142 | Bytes beyond the tenth never influence the parse. |
| UfsDebugfs.TestBusCfgLateCommaRejected | drivers/scsi/ufs/ufs-qcom-debugfs.c:150-156 | With no comma among the first ten bytes, the write returns -EINVAL and leaves the host unchanged. |
| UfsDebugfs.ParseTestBusCfgDecimal | drivers/scsi/ufs/ufs-qcom-debugfs.c:139-164 | Any "MAJ,MIN" written in decimal that fits the ten bytes parses to exactly (MAJ, MIN). |
| UfsDebugfs.TestBusCfgDecimalWrite | drivers/scsi/ufs/ufs-qcom-debugfs.c:124-192 | A legal decimal "MAJ,MIN" write that fits the ten bytes, with a successful reconfiguration, selects exactly that pair, narrowed to u8, and returns the byte count. |
| UfsDebugfs.ParseTestBusCfgHex | drivers/scsi/ufs/ufs-qcom-debugfs.c:139-164 | For any two bytes, "0xXY, 0xXY" (the text the buffer is sized for) is exactly ten bytes long and parses to those two bytes. |
| UfsDebugfs.TestBusCfgHexWrite | drivers/scsi/ufs/ufs-qcom-debugfs.c:124-192 | A legal "0xXY, 0xXY" write with a successful reconfiguration selects exactly those two bytes and returns 10. |
| UfsBootDevice.StrlCpy | drivers/scsi/ufs/ufs-qcom-debugfs.c:416-419 | With size 0 nothing is written. Otherwise the result is a prefix of the source C string, shorter than the size, and either the whole string or size-1 characters long: the longest prefix that fits. |
| UfsBootDevice.StrlCpyTwice | drivers/scsi/ufs/ufs-qcom-debugfs.c:446-449 | Copying a copy through a second buffer equals one copy through the smaller of the two buffers. |
| UfsBootDevice.StrlCpyIdempotent | drivers/scsi/ufs/ufs-qcom-debugfs.c:439-444 | Copying again into a buffer of the same size changes nothing. |
| UfsBootDevice.StrlCpyFits | drivers/scsi/ufs/ufs-qcom-debugfs.c:439-444 | A C string shorter than the buffer is copied whole. |
| UfsBootDevice.Initial | drivers/scsi/ufs/ufs-qcom-debugfs.c:27-35 | The static record starts zero-filled with empty strings and satisfies the record invariant. |
| UfsBootDevice.SetProductName | drivers/scsi/ufs/ufs-qcom-debugfs.c:439-444 | The stored name is the longest prefix of the input's C string with at most 32 characters. The other fields are unchanged and the invariant is preserved. |
| UfsBootDevice.GetProductName | drivers/scsi/ufs/ufs-qcom-debugfs.c:446-449 | A zero-length buffer is left untouched. Otherwise the caller gets the longest prefix of the stored name that fits its buffer. |
| UfsBootDevice.SetFwVersion | drivers/scsi/ufs/ufs-qcom-debugfs.c:469-472 | The stored version is the longest prefix of the input's C string with at most 5 characters. The other fields are unchanged and the invariant is preserved. |
| UfsBootDevice.SetHufsDieid | drivers/scsi/ufs/ufs-qcom-debugfs.c:416-419 | The stored die id is the longest prefix of the input's C string with at most 800 characters. The other fields are unchanged and the invariant is preserved. |
| UfsBootDevice.SetManfid | drivers/scsi/ufs/ufs-qcom-debugfs.c:342-345 | Setting the manufacturer id leaves every other field unchanged. |
| UfsBootDevice.GetManfid | drivers/scsi/ufs/ufs-qcom-debugfs.c:347-350 | The id returned is the one whose setting leaves the record unchanged, that is the stored id. |
| UfsBootDevice.SetSize | drivers/scsi/ufs/ufs-qcom-debugfs.c:370-373 | Setting the size leaves every other field unchanged. |
| UfsBootDevice.GetSize | drivers/scsi/ufs/ufs-qcom-debugfs.c:375-378 | The size returned is the one whose setting leaves the record unchanged, that is the stored size. |
| UfsBootDevice.ManfidRoundTrip | drivers/scsi/ufs/ufs-qcom-debugfs.c:342-350 | The manufacturer id reads back exactly as set, and setting what was read changes nothing. |
| UfsBootDevice.SizeRoundTrip | drivers/scsi/ufs/ufs-qcom-debugfs.c:370-378 | The size reads back exactly as set, and setting what was read changes nothing. |
| UfsBootDevice.ProductNameSetThenGet | drivers/scsi/ufs/ufs-qcom-debugfs.c:439-449 | Reading the name back into a buffer of `len` bytes gives one `strlcpy` of the original through min(33, len) bytes. |
| UfsBootDevice.ShortProductNameRoundTrip | drivers/scsi/ufs/ufs-qcom-debugfs.c:439-449 | A NUL-free name of at most 32 characters, read back into a large enough buffer, comes back whole. |
| UfsBootDevice.FwVersionSetStored | drivers/scsi/ufs/ufs-qcom-debugfs.c:469-472 | Feeding the stored firmware version back to its setter leaves the record unchanged. |
| UfsBootDevice.HufsDieidSetStored | drivers/scsi/ufs/ufs-qcom-debugfs.c:416-419 | Feeding the stored die id back to its setter leaves the record unchanged. |
| UfsBootDevice.LoadWord | drivers/scsi/ufs/ufs-qcom-debugfs.c:323 | A word loaded from four bytes holds the first byte as its least significant byte, and so on up. |
| UfsBootDevice.Be32ToCpu | drivers/scsi/ufs/ufs-qcom-debugfs.c:324-325 | Byte k of the result is byte 3-k of the input. |
| UfsBootDevice.SwapHalves | drivers/scsi/ufs/ufs-qcom-debugfs.c:326 | The low 16 bits of the result are the input's high 16 bits, and the high 16 bits are the input's low 16 bits. |
| UfsBootDevice.SwapHalvesInvolution | drivers/scsi/ufs/ufs-qcom-debugfs.c:326 | Swapping the 16-bit halves of a word twice gives the word back. |
| UfsBootDevice.CidShow | drivers/scsi/ufs/ufs-qcom-debugfs.c:317-330 | With no host nothing is printed. Otherwise the output is 32 characters and a newline. |
| UfsBootDevice.CidShowBytes | drivers/scsi/ufs/ufs-qcom-debugfs.c:323-327 | The CID line shows unique-number bytes 0-11 in memory order, then bytes 13, 12, 15, 14, each as two hex digits. |
| UfsBootDevice.CidRoundTrip | drivers/scsi/ufs/ufs-qcom-debugfs.c:323-327 | Decoding the CID line gives back all 16 bytes of the unique number. |
| UfsBootDevice.ParseHexBytesRoundTrip | drivers/scsi/ufs/ufs-qcom-debugfs.c:327 | Hex digit pairs printed for a byte sequence read back as that sequence. |
| UfsBootDevice.HealthShow | drivers/scsi/ufs/ufs-qcom-debugfs.c:490-508 | With no host it prints nothing and returns 0. A failed read returns the error, prints the failure message and shows no value line. Otherwise it returns 0, and the "0x%02x" line reads back as the selected descriptor byte. |
| UfsBootDevice.PreEolInfoShow | drivers/scsi/ufs/ufs-qcom-debugfs.c:490-508 | The line shown reads back as health descriptor byte 2. A read error is returned and no value is shown. |
| UfsBootDevice.LifeTimeEstTypAShow | drivers/scsi/ufs/ufs-qcom-debugfs.c:520-538 | The line shown reads back as health descriptor byte 3. A read error is returned and no value is shown. |
| UfsBootDevice.LifeTimeEstTypBShow | drivers/scsi/ufs/ufs-qcom-debugfs.c:550-568 | The line shown reads back as health descriptor byte 4. A read error is returned and no value is shown. |
| UfsBootDevice.HealthShowOnlyReadsItsByte | drivers/scsi/ufs/ufs-qcom-debugfs.c:498-505 | Two reads that agree on the error code and the selected byte show the same thing. |

## Left out

- Registration plumbing is not modelled:
  - debugfs and procfs file creation and removal (`ufs_qcom_dbg_add_debugfs`, `ufs_debug_proc_init_bootdevice`);
  - the `file_operations` tables and the `*_open` helpers;
  - platform probe and remove registration, sysfs file creation, and `pinctrl_init`.
  
  These are kernel ABI with nothing to prove.
- Probe's error paths (allocation failure, pin-control lookup failure) are not modelled. Only the chip probe leaves behind on success is.
- Locking and power management are left out. `pm_runtime_get/put_sync`, `ufshcd_hold/release`, the host spinlock and the chip mutex appear only as event atomicity.
- The hrtimer clock is not modelled. The remaining time shown by `duration` is a parameter.
- `ufs_qcom_testbus_cfg_show`, `ufs_qcom_dbg_testbus_bus_read` (a hardware register read), the `pm_qos` show and the register dump itself are left out. They only print or read hardware.
- The fixed texts of the manfid ("0x%06x"), size, name, type, product_name, rev and hufs_dieid shows are left out. The `name` show prints the constant "qcom-platform" and the `type` show prints the constant `BOOTTYPE`; neither is a record field. The other five print the record's fields, which are modelled.
- `qpnp_vib_show_activate` and `qpnp_vib_brightness_get` are left out. The first always prints "0\n" and returns the 2 bytes written; the second always returns 0.
- The `dev_err` messages on the refusal paths of the test-bus configuration write (no readable input, no usable comma, no two numbers) are left out. Only the returned errno is modelled, whereas the health shows do model their failure message because it is part of the shown text.
- The `chip == NULL` check in `qpnp_vib_brightness_set` is left out. `container_of` of a valid LED device never yields NULL, so the model always has a chip.
- `ufshcd_read_health_desc`, `ufs_qcom_testbus_config` and `ufs_qcom_testbus_cfg_is_ok` are defined outside this driver file (in the UFS host controller core and the Qualcomm UFS platform driver), so their results are parameters.
- The `QUERY_DESC_HEALTH_DEF_SIZE` constant is not modelled. The descriptor only needs to reach byte 4.
- The CID encoder assumes a little-endian CPU, as on the arm64 targets this driver serves. `memcpy` into a `u32` is a little-endian load there, and `be32_to_cpu` is a byte swap.
- `drivers/scsi/ufs/ufs-qcom-debugfs.h` and `include/soc/qcom/watchdog.h` hold only declarations and configuration stubs. They are not part of this model.
- KernelLib.ScanIntPair: which text matches is stated through `ScanInt`, but the numbers `ScanInt` reads are pinned by lemmas only for non-negative decimal text and for "0xXY" bytes. Octal, negative and longer hex numbers have no read-back lemma.
- KernelLib.ScanIntPairDecimal: covers only non-negative decimal input without leading white space. Octal and negative inputs go through the same `ScanInt` definition, but no round-trip lemma is stated for them. The hex form is covered by `KernelLib.ScanIntPairHex`.
- KernelLib.KStrToUint: its own contract bounds the value and names the errors but not which number is read. That number is pinned only for `Decimal(n) + "\n"` (and without the newline, `KStrToUintDecimal`), for `"0x" + HexNumber(n) + "\n"` (`KStrToUintHex`) and for one leading '+' (`KStrToUintPlus`). Octal text with a leading '0' and upper-case hex digits are not covered by a lemma.
- KernelLib.ParseUnsigned: the value read is pinned down by lemmas for decimal text (`KStrToUintDecimal`) and "0x" hex text (`KStrToUintHex`) only. Octal text with a leading '0' and upper-case hex digits go through the same definition, but no round-trip lemma is stated for them.
- UfsDebugfs.ParseTestBusCfgDecimal: covers only pairs whose text, comma included, fits the ten bytes copied. A longer text is cut at ten bytes and so reads a different number; `TestBusCfgReadsTenChars` states that those later bytes never matter.
- UfsBootDevice.CidShow: its `return 0` is not part of the result; the function yields only the printed text.
