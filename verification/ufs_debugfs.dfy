/*******************************************************************************
 *  The debugfs attributes of drivers/scsi/ufs/ufs-qcom-debugfs.c that act on
 *  the Qualcomm UFS host: the dbg_print_en bit mask, the test-bus enable bit,
 *  the test-bus "MAJ,MIN" configuration write and the debug-regs dump that
 *  temporarily forces register printing on.
 *******************************************************************************/

module UfsDebugfs {
  import opened KernelLib

  /**
   * UFS_QCOM_DBG_PRINT_ALL, UFS_QCOM_DBG_PRINT_TEST_BUS_EN and
   * UFS_QCOM_DBG_PRINT_REGS_EN. Their values live in ufs-qcom.h, which is not
   * part of this model, so every operation takes them as a parameter.
   */
  datatype DbgMasks = DbgMasks(printAll: Bits, testBusEn: Bits, regsEn: Bits)

  /** Masks that fit the u32 dbg_print_en field, as the BIT(n) flags of ufs-qcom.h do. */
  predicate MasksFitU32(m: DbgMasks)
  {
    && (forall b :: b in m.printAll ==> b < 32)
    && (forall b :: b in m.testBusEn ==> b < 32)
    && (forall b :: b in m.regsEn ==> b < 32)
  }

  /** A mask with exactly one bit set, as a BIT(n) flag is. */
  predicate IsSingleBit(m: Bits)
  {
    |m| == 1
  }

  /** The test-bus selection the host keeps (u8 select_major, select_minor). */
  datatype TestBusSelect = TestBusSelect(selectMajor: uint8, selectMinor: uint8)

  /** The part of struct ufs_qcom_host these attributes touch; dbg_print_en is a u32. */
  datatype QcomHost = QcomHost(dbgPrintEn: Bits, testbus: TestBusSelect)

  /**
   * A debugfs attribute set: the handler's return value and the host after it.
   * The host is the attribute's private data, None when it is NULL.
   */
  datatype AttrSet = AttrSet(ret: int, host: Option<QcomHost>)

  /** (u8) of an int: the low eight bits of its two's-complement form. */
  function ToU8(x: int): (b: uint8)
    ensures (x - b as int) % U8Limit == 0
    ensures 0 <= x < U8Limit ==> b as int == x
  {
    (x % U8Limit) as uint8
  }

  /* ------------------------------------------------------------------ */
  /* dbg_print_en                                                        */
  /* ------------------------------------------------------------------ */

  /** ufs_qcom_dbg_print_en_read: the whole mask (widening to u64 adds no bit). */
  function PrintEnRead(data: Option<QcomHost>): (r: Result<Bits>)
    ensures data.None? <==> r == Err(EINVAL)
    ensures data.Some? ==> r == Ok(data.value.dbgPrintEn)
  {
    match data
    case None => Err(EINVAL)
    case Some(h) => Ok(h.dbgPrintEn)
  }

  /**
   * ufs_qcom_dbg_print_en_set: a value with a bit outside PRINT_ALL is refused
   * with -EINVAL and nothing changes; otherwise its low 32 bits become the mask.
   */
  function PrintEnSet(data: Option<QcomHost>, attrId: Bits, m: DbgMasks): (r: AttrSet)
    ensures data.None? ==> r == AttrSet(-(EINVAL as int), None)
    ensures data.Some? && !(attrId <= m.printAll) ==> r == AttrSet(-(EINVAL as int), data)
    ensures data.Some? && attrId <= m.printAll ==>
              && r.ret == 0 && r.host.Some?
              && r.host.value.dbgPrintEn <= attrId
              && (forall b :: b in attrId && b < 32 ==> b in r.host.value.dbgPrintEn)
              && (forall b :: b in r.host.value.dbgPrintEn ==> b < 32)
              && r.host.value.testbus == data.value.testbus
  {
    match data
    case None => AttrSet(-(EINVAL as int), None)
    case Some(h) =>
      EmptyDifference(attrId, m.printAll);
      if attrId - m.printAll != {} then AttrSet(-(EINVAL as int), data)
      else AttrSet(0, Some(h.(dbgPrintEn := Truncate(attrId, 32))))
  }

  /**
   * With PRINT_ALL inside 32 bits, a dbg_print_en write succeeds exactly when
   * the value lies within PRINT_ALL, and then reads back unchanged; a refused
   * write leaves the old value readable.
   */
  lemma PrintEnSetThenRead(h: QcomHost, attrId: Bits, m: DbgMasks)
    requires MasksFitU32(m)
    ensures var r := PrintEnSet(Some(h), attrId, m);
      && (r.ret == 0 <==> attrId <= m.printAll)
      && PrintEnRead(r.host) == (if r.ret == 0 then Ok(attrId) else Ok(h.dbgPrintEn))
  {
    if attrId <= m.printAll {
      assert Truncate(attrId, 32) == attrId;
    } else {
      var b :| b in attrId && b !in m.printAll;
      assert b in attrId - m.printAll;
    }
  }

  /* ------------------------------------------------------------------ */
  /* testbus/enable                                                      */
  /* ------------------------------------------------------------------ */

  /** ufs_qcom_dbg_testbus_en_read: 1 when a TEST_BUS_EN bit is set, else 0. */
  function TestBusEnRead(data: Option<QcomHost>, m: DbgMasks): (r: Result<nat>)
    ensures data.None? <==> r == Err(EINVAL)
    ensures data.Some? ==> r.Ok? && r.value <= 1
    ensures data.Some? ==> (r.value == 1 <==> !(data.value.dbgPrintEn !! m.testBusEn))
  {
    match data
    case None => Err(EINVAL)
    case Some(h) =>
      EmptyIntersection(h.dbgPrintEn, m.testBusEn);
      Ok(if h.dbgPrintEn * m.testBusEn != {} then 1 else 0)
  }

  /**
   * ufs_qcom_dbg_testbus_en_set: a non-zero value sets TEST_BUS_EN, zero clears
   * it, no other bit moves; the test-bus is then reconfigured and the result
   * of that (a foreign call, passed in as `configRet`) is returned.
   */
  function TestBusEnSet(data: Option<QcomHost>, attrId: Bits, m: DbgMasks, configRet: int): (r: AttrSet)
    ensures data.None? ==> r == AttrSet(-(EINVAL as int), None)
    ensures data.Some? ==>
              && r.ret == configRet && r.host.Some?
              && r.host.value.testbus == data.value.testbus
              && r.host.value.dbgPrintEn - m.testBusEn == data.value.dbgPrintEn - m.testBusEn
              && (attrId != {} ==> Truncate(m.testBusEn, 32) <= r.host.value.dbgPrintEn)
              && (attrId == {} ==> r.host.value.dbgPrintEn !! m.testBusEn)
  {
    match data
    case None => AttrSet(-(EINVAL as int), None)
    case Some(h) =>
      var en := if attrId != {} then h.dbgPrintEn + Truncate(m.testBusEn, 32) else h.dbgPrintEn - m.testBusEn;
      AttrSet(configRet, Some(h.(dbgPrintEn := en)))
  }

  /** What test-bus enable reads after a write is whether the write was non-zero. */
  lemma TestBusEnSetThenRead(h: QcomHost, attrId: Bits, m: DbgMasks, configRet: int)
    requires m.testBusEn != {} && MasksFitU32(m)
    ensures TestBusEnRead(TestBusEnSet(Some(h), attrId, m, configRet).host, m) == Ok(if attrId != {} then 1 else 0)
  {
    var b :| b in m.testBusEn;
    assert b in Truncate(m.testBusEn, 32);
  }

  /* ------------------------------------------------------------------ */
  /* debug-regs                                                          */
  /* ------------------------------------------------------------------ */

  /**
   * ufs_qcom_dbg_dbg_regs_show: the mask the (foreign) register dump runs
   * under, and the host after the show.
   */
  datatype RegsShow = RegsShow(ret: int, duringDump: Bits, host: QcomHost)

  /**
   * Forces REGS_EN on for the dump, then clears it again only if no REGS_EN bit
   * was set before: afterwards REGS_EN is wholly set if any of its bits was,
   * and wholly clear otherwise. The host comes back unchanged exactly when the
   * REGS_EN bits were all clear or all set beforehand; no other bit ever moves.
   */
  function DbgRegsShow(h: QcomHost, m: DbgMasks): (r: RegsShow)
    requires MasksFitU32(m)
    ensures r.ret == 0
    ensures m.regsEn <= r.duringDump
    ensures r.duringDump - m.regsEn == h.dbgPrintEn - m.regsEn
    ensures r.host.dbgPrintEn - m.regsEn == h.dbgPrintEn - m.regsEn
    ensures !(h.dbgPrintEn !! m.regsEn) ==> m.regsEn <= r.host.dbgPrintEn
    ensures h.dbgPrintEn !! m.regsEn ==> r.host.dbgPrintEn !! m.regsEn
    ensures r.host.testbus == h.testbus
    ensures r.host == h <==> (h.dbgPrintEn !! m.regsEn || m.regsEn <= h.dbgPrintEn)
  {
    var wasOn := h.dbgPrintEn * m.regsEn != {};
    EmptyIntersection(h.dbgPrintEn, m.regsEn);
    var during := h.dbgPrintEn + Truncate(m.regsEn, 32);
    assert Truncate(m.regsEn, 32) == m.regsEn;
    var after := if !wasOn then during - m.regsEn else during;
    assert !wasOn ==> after == h.dbgPrintEn;
    assert wasOn && !(m.regsEn <= h.dbgPrintEn) ==> after != h.dbgPrintEn by {
      if wasOn && !(m.regsEn <= h.dbgPrintEn) {
        var b :| b in m.regsEn && b !in h.dbgPrintEn;
        assert b in after;
      }
    }
    RegsShow(0, during, h.(dbgPrintEn := after))
  }

  /** With REGS_EN a single bit, as BIT(n) makes it, debug-regs always restores dbg_print_en exactly. */
  lemma DbgRegsShowRestores(h: QcomHost, m: DbgMasks)
    requires MasksFitU32(m) && IsSingleBit(m.regsEn)
    ensures DbgRegsShow(h, m).host == h
  {
    var b :| b in m.regsEn;
    assert m.regsEn == {b} by {
      assert |m.regsEn - {b}| == 0;
    }
  }

  /* ------------------------------------------------------------------ */
  /* testbus/configuration                                               */
  /* ------------------------------------------------------------------ */

  /** TESTBUS_CFG_BUFF_LINE_SIZE: sizeof("0xXY, 0xXY"), its NUL included. */
  const TestbusCfgBuffLineSize: nat := |"0xXY, 0xXY"| + 1

  /** How many bytes the configuration write looks at: the buffer minus its NUL. */
  const TestbusCfgMaxInput: nat := TestbusCfgBuffLineSize - 1

  /**
   * simple_write_to_buffer into the configuration buffer at offset 0. `ubuf`
   * holds the user bytes that can be read, `cnt` the length the writer
   * passed: at most TestbusCfgMaxInput bytes are taken, and -EFAULT means not
   * one of them could be read.
   */
  function CopyConfig(ubuf: string, cnt: nat): (r: Result<string>)
    ensures r.Err? <==> Min(cnt, TestbusCfgMaxInput) > 0 && |ubuf| == 0
    ensures r.Err? ==> r.errno == EFAULT
    ensures r.Ok? ==> r.value == ubuf[..Min(Min(cnt, TestbusCfgMaxInput), |ubuf|)]
  {
    var n := Min(cnt, TestbusCfgMaxInput);
    if n == 0 then Ok([])
    else if |ubuf| == 0 then Err(EFAULT)
    else Ok(ubuf[..Min(n, |ubuf|)])
  }

  /**
   * The validation part of ufs_qcom_dbg_testbus_cfg_write: copy, NUL-terminate,
   * find a comma (not at the start), and read "%i,%i". -EFAULT exactly when
   * nothing could be copied; every complaint about the text is -EINVAL; and
   * the text is accepted exactly when it has a comma past its first byte and
   * both conversions succeed, yielding the pair they read.
   */
  function ParseTestBusCfg(ubuf: string, cnt: nat): (r: Result<(int, int)>)
    ensures r.Err? ==> r.errno == EFAULT || r.errno == EINVAL
    ensures r == Err(EFAULT) <==> Min(cnt, TestbusCfgMaxInput) > 0 && |ubuf| == 0
    ensures r.Ok? ==> CopyConfig(ubuf, cnt).Ok?
    ensures CopyConfig(ubuf, cnt).Ok? ==>
              var text := CStr(CopyConfig(ubuf, cnt).value);
              && |text| <= TestbusCfgMaxInput
              && (r.Ok? <==> FindChar(text, ',').Some? && FindChar(text, ',').value > 0 && ScanIntPair(text).Some?)
              && (r.Ok? ==> ScanIntPair(text) == Some(r.value))
              && (r.Err? ==> r.errno == EINVAL)
  {
    match CopyConfig(ubuf, cnt)
    case Err(e) => Err(e)
    case Ok(copied) =>
      var text := CStr(copied);
      var comma := FindChar(text, ',');
      if comma.None? || comma.value == 0 then Err(EINVAL)
      else match ScanIntPair(text)
        case None => Err(EINVAL)
        case Some(p) => Ok(p)
  }

  /** A configuration write's return value and the host after it. */
  datatype CfgWrite = CfgWrite(ret: int, host: QcomHost)

  /**
   * ufs_qcom_dbg_testbus_cfg_write. Bad text and an illegal pair (judged by
   * ufs_qcom_testbus_cfg_is_ok, passed in as `cfgIsOk`) are refused before the
   * host changes; an accepted pair is narrowed to u8 and stored, and the
   * write returns `cnt` unless the reconfiguration (`configRet`) failed.
   */
  function TestBusCfgWrite(h: QcomHost, ubuf: string, cnt: nat, cfgIsOk: (int, int) -> bool, configRet: int): (r: CfgWrite)
    ensures ParseTestBusCfg(ubuf, cnt).Err? ==> r == CfgWrite(-(ParseTestBusCfg(ubuf, cnt).errno as int), h)
    ensures ParseTestBusCfg(ubuf, cnt).Ok? ==>
              var (major, minor) := ParseTestBusCfg(ubuf, cnt).value;
              if !cfgIsOk(major, minor) then r == CfgWrite(-(EPERM as int), h)
              else
                && r.host.testbus.selectMajor == ToU8(major)
                && r.host.testbus.selectMinor == ToU8(minor)
                && r.host.dbgPrintEn == h.dbgPrintEn
                && r.ret == (if configRet != 0 then configRet else cnt)
    ensures r.host != h ==> ParseTestBusCfg(ubuf, cnt).Ok?
  {
    match ParseTestBusCfg(ubuf, cnt)
    case Err(e) => CfgWrite(-(e as int), h)
    case Ok((major, minor)) =>
      if !cfgIsOk(major, minor) then CfgWrite(-(EPERM as int), h)
      else
        var h' := h.(testbus := TestBusSelect(ToU8(major), ToU8(minor)));
        CfgWrite(if configRet != 0 then configRet else cnt, h')
  }

  /** Only the first ten characters of a configuration write matter. */
  lemma {:induction false} TestBusCfgReadsTenChars(ubuf: string, extra: string, cnt: nat)
    requires |ubuf| >= TestbusCfgMaxInput
    ensures ParseTestBusCfg(ubuf + extra, cnt) == ParseTestBusCfg(ubuf, cnt)
  {
    var n := Min(cnt, TestbusCfgMaxInput);
    assert (ubuf + extra)[..n] == ubuf[..n];
  }

  /** A comma past the tenth character is never seen, so the write is refused with -EINVAL. */
  lemma TestBusCfgLateCommaRejected(h: QcomHost, ubuf: string, cnt: nat, cfgIsOk: (int, int) -> bool, configRet: int)
    requires |ubuf| >= TestbusCfgMaxInput && cnt >= TestbusCfgMaxInput
    requires ',' !in ubuf[..TestbusCfgMaxInput]
    ensures TestBusCfgWrite(h, ubuf, cnt, cfgIsOk, configRet) == CfgWrite(-(EINVAL as int), h)
  {
    var copied := ubuf[..TestbusCfgMaxInput];
    assert CopyConfig(ubuf, cnt) == Ok(copied);
    var text := CStr(copied);
    assert ',' !in text by {
      forall i | 0 <= i < |text| ensures text[i] != ',' {
        assert text[i] == copied[i];
      }
    }
  }

  /** "MAJ,MIN" in decimal that fits the ten bytes parses to exactly that pair. */
  lemma ParseTestBusCfgDecimal(major: nat, minor: nat)
    requires |Decimal(major)| + 1 + |Decimal(minor)| <= TestbusCfgMaxInput
    ensures var text := Decimal(major) + "," + Decimal(minor);
      ParseTestBusCfg(text, |text|) == Ok((major, minor))
  {
    var text := Decimal(major) + "," + Decimal(minor);
    FitsInt(major);
    FitsInt(minor);
    assert text[..|text|] == text;
    assert CopyConfig(text, |text|) == Ok(text);
    DecimalValue(major);
    DecimalValue(minor);
    DigitsAreNotSeparators(Decimal(major), 10);
    DigitsAreNotSeparators(Decimal(minor), 10);
    assert NUL !in text;
    CStrOfPlain(text);
    var comma := |Decimal(major)|;
    assert text[comma] == ',';
    assert text[..comma] == Decimal(major);
    assert FindChar(text, ',') == Some(comma);
    ScanIntPairDecimal(major, minor);
  }

  /** A number printed in at most eight digits (one side of a pair that fits) is a valid int. */
  lemma FitsInt(n: nat)
    requires |Decimal(n)| <= TestbusCfgMaxInput - 2
    ensures n < S32Limit
  {
    DecimalDigitsBound(n, 8);
    assert Pow10(8) == 100000000;
  }

  /**
   * Writing "MAJ,MIN" in decimal that fits the ten bytes selects exactly
   * that pair, narrowed to u8, when it is legal and the reconfiguration
   * succeeds.
   */
  lemma TestBusCfgDecimalWrite(h: QcomHost, major: nat, minor: nat, cfgIsOk: (int, int) -> bool)
    requires |Decimal(major)| + 1 + |Decimal(minor)| <= TestbusCfgMaxInput
    requires cfgIsOk(major, minor)
    ensures var text := Decimal(major) + "," + Decimal(minor);
      TestBusCfgWrite(h, text, |text|, cfgIsOk, 0) ==
        CfgWrite(|text|, h.(testbus := TestBusSelect(ToU8(major), ToU8(minor))))
  {
    ParseTestBusCfgDecimal(major, minor);
  }

  /**
   * The "0xXY, 0xXY" form the buffer is sized for, at exactly ten bytes,
   * parses to the two bytes.
   */
  lemma ParseTestBusCfgHex(major: uint8, minor: uint8)
    ensures var text := "0x" + HexByte(major) + ", 0x" + HexByte(minor);
      |text| == TestbusCfgMaxInput && ParseTestBusCfg(text, |text|) == Ok((major as int, minor as int))
  {
    var text := "0x" + HexByte(major) + ", 0x" + HexByte(minor);
    assert text[..|text|] == text;
    assert CopyConfig(text, |text|) == Ok(text);
    DigitsAreNotSeparators(HexByte(major), 16);
    DigitsAreNotSeparators(HexByte(minor), 16);
    assert NUL !in text;
    CStrOfPlain(text);
    assert text[4] == ',';
    assert ',' !in text[..4];
    assert FindChar(text, ',') == Some(4);
    ScanIntPairHex(major, minor);
  }

  /**
   * Writing "0xXY, 0xXY" selects exactly those two bytes when the pair is
   * legal and the reconfiguration succeeds.
   */
  lemma TestBusCfgHexWrite(h: QcomHost, major: uint8, minor: uint8, cfgIsOk: (int, int) -> bool)
    requires cfgIsOk(major as int, minor as int)
    ensures var text := "0x" + HexByte(major) + ", 0x" + HexByte(minor);
      TestBusCfgWrite(h, text, |text|, cfgIsOk, 0) ==
        CfgWrite(TestbusCfgMaxInput, h.(testbus := TestBusSelect(major, minor)))
  {
    ParseTestBusCfgHex(major, minor);
  }
}
