/*******************************************************************************
 *  The /proc/bootdevice side of drivers/scsi/ufs/ufs-qcom-debugfs.c: the
 *  process-wide boot device record with its strlcpy setters and plain
 *  accessors, the CID encoder behind /proc/bootdevice/cid and the three
 *  health-descriptor shows.
 *******************************************************************************/

module UfsBootDevice {
  import opened KernelLib

  /* ------------------------------------------------------------------ */
  /* strlcpy                                                             */
  /* ------------------------------------------------------------------ */

  /**
   * strlcpy(dst, src, size) as the C string `dst` then holds: the longest
   * prefix of the C string in `src` that leaves room for the NUL. With
   * size 0 nothing is written at all, which is None here.
   */
  function StrlCpy(src: string, size: nat): (r: Option<string>)
    ensures r.None? <==> size == 0
    ensures r.Some? ==> |r.value| < size && r.value <= CStr(src)
    ensures r.Some? ==> r.value == CStr(src) || |r.value| == size - 1
  {
    if size == 0 then None
    else
      var c := CStr(src);
      Some(if |c| < size then c else c[..size - 1])
  }

  /** A C string that fits is copied whole. */
  lemma StrlCpyFits(src: string, size: nat)
    requires |CStr(src)| < size
    ensures StrlCpy(src, size) == Some(CStr(src))
  {
  }

  /** Copying a copy through a second buffer is one copy through the smaller of the two. */
  lemma StrlCpyTwice(src: string, a: nat, b: nat)
    requires a > 0 && b > 0
    ensures StrlCpy(StrlCpy(src, a).value, b) == StrlCpy(src, Min(a, b))
  {
    var c := CStr(src);
    var first := StrlCpy(src, a).value;
    CStrOfPlain(first);
    if |c| >= a && |first| >= b {
      assert first[..b - 1] == c[..b - 1];
    }
  }

  /** Copying into a buffer of the same size again changes nothing. */
  lemma StrlCpyIdempotent(src: string, size: nat)
    requires size > 0
    ensures StrlCpy(StrlCpy(src, size).value, size) == StrlCpy(src, size)
  {
    StrlCpyTwice(src, size, size);
  }

  /* ------------------------------------------------------------------ */
  /* The boot device record                                              */
  /* ------------------------------------------------------------------ */

  /** MAX_NAME_LEN, MAX_PRL_LEN and MAX_DIEID_LEN: characters each field keeps. */
  const MaxNameLen: nat := 32
  const MaxPrlLen: nat := 5
  const MaxDieidLen: nat := 800

  /**
   * struct __bootdevice, with each character array as the C string it holds.
   * `size` is a sector_t, 64 bits wide on the platforms this driver serves.
   */
  datatype BootDevice = BootDevice(
    productName: string,
    size: uint64,
    manfid: uint32,
    fwVersion: string,
    hufsDieid: string)

  /** Every string field fits its array with room for the NUL. */
  predicate Inv(d: BootDevice)
  {
    |d.productName| <= MaxNameLen && NUL !in d.productName &&
    |d.fwVersion| <= MaxPrlLen && NUL !in d.fwVersion &&
    |d.hufsDieid| <= MaxDieidLen && NUL !in d.hufsDieid
  }

  /** The static record before any setter runs: zero-filled. */
  function Initial(): (d: BootDevice)
    ensures Inv(d)
    ensures d.productName == [] && d.fwVersion == [] && d.hufsDieid == []
    ensures d.size == 0 && d.manfid == 0
  {
    BootDevice([], 0, 0, [], [])
  }

  /** set_ufs_bootdevice_product_name: strlcpy into the 33-byte array. */
  function SetProductName(d: BootDevice, name: string): (r: BootDevice)
    ensures Inv(d) ==> Inv(r)
    ensures r.productName <= CStr(name) && |r.productName| <= MaxNameLen
    ensures r.productName == CStr(name) || |r.productName| == MaxNameLen
    ensures r.size == d.size && r.manfid == d.manfid
    ensures r.fwVersion == d.fwVersion && r.hufsDieid == d.hufsDieid
  {
    d.(productName := StrlCpy(name, MaxNameLen + 1).value)
  }

  /**
   * get_ufs_bootdevice_product_name: strlcpy of the stored name into the
   * caller's buffer of `len` bytes; None when `len` is 0 and the buffer is
   * left untouched.
   */
  function GetProductName(d: BootDevice, len: uint32): (r: Option<string>)
    requires Inv(d)
    ensures r.None? <==> len == 0
    ensures r.Some? ==> r.value <= d.productName && |r.value| < len as int
    ensures r.Some? ==> r.value == d.productName || |r.value| == len as int - 1
  {
    CStrOfPlain(d.productName);
    StrlCpy(d.productName, len as nat)
  }

  /** set_ufs_fw_version: strlcpy into the 6-byte array. */
  function SetFwVersion(d: BootDevice, fw: string): (r: BootDevice)
    ensures Inv(d) ==> Inv(r)
    ensures r.fwVersion <= CStr(fw) && |r.fwVersion| <= MaxPrlLen
    ensures r.fwVersion == CStr(fw) || |r.fwVersion| == MaxPrlLen
    ensures r.productName == d.productName && r.size == d.size
    ensures r.manfid == d.manfid && r.hufsDieid == d.hufsDieid
  {
    d.(fwVersion := StrlCpy(fw, MaxPrlLen + 1).value)
  }

  /** set_ufs_bootdevice_hufs_dieid: strlcpy into the 801-byte array. */
  function SetHufsDieid(d: BootDevice, dieid: string): (r: BootDevice)
    ensures Inv(d) ==> Inv(r)
    ensures r.hufsDieid <= CStr(dieid) && |r.hufsDieid| <= MaxDieidLen
    ensures r.hufsDieid == CStr(dieid) || |r.hufsDieid| == MaxDieidLen
    ensures r.productName == d.productName && r.size == d.size
    ensures r.manfid == d.manfid && r.fwVersion == d.fwVersion
  {
    d.(hufsDieid := StrlCpy(dieid, MaxDieidLen + 1).value)
  }

  /** set_ufs_bootdevice_manfid */
  function SetManfid(d: BootDevice, manfid: uint32): (r: BootDevice)
    ensures r.productName == d.productName && r.size == d.size
    ensures r.fwVersion == d.fwVersion && r.hufsDieid == d.hufsDieid
  {
    d.(manfid := manfid)
  }

  /** get_ufs_bootdevice_manfid: the one id whose setting leaves the record as it is. */
  function GetManfid(d: BootDevice): (r: uint32)
    ensures SetManfid(d, r) == d
  {
    d.manfid
  }

  /** set_ufs_bootdevice_size */
  function SetSize(d: BootDevice, size: uint64): (r: BootDevice)
    ensures r.productName == d.productName && r.manfid == d.manfid
    ensures r.fwVersion == d.fwVersion && r.hufsDieid == d.hufsDieid
  {
    d.(size := size)
  }

  /** get_ufs_bootdevice_size: the one size whose setting leaves the record as it is. */
  function GetSize(d: BootDevice): (r: uint64)
    ensures SetSize(d, r) == d
  {
    d.size
  }

  /** The manufacturer id reads back exactly as set, and storing what was read changes nothing. */
  lemma ManfidRoundTrip(d: BootDevice, manfid: uint32)
    ensures GetManfid(SetManfid(d, manfid)) == manfid
    ensures SetManfid(d, GetManfid(d)) == d
  {
  }

  /** The size reads back exactly as set, and storing what was read changes nothing. */
  lemma SizeRoundTrip(d: BootDevice, size: uint64)
    ensures GetSize(SetSize(d, size)) == size
    ensures SetSize(d, GetSize(d)) == d
  {
  }

  /**
   * Reading the product name back into a buffer of `len` bytes gives what one
   * strlcpy of the original name through the smaller of the two arrays gives.
   */
  lemma ProductNameSetThenGet(d: BootDevice, name: string, len: uint32)
    requires Inv(d)
    requires len > 0
    ensures GetProductName(SetProductName(d, name), len) == StrlCpy(name, Min(MaxNameLen + 1, len as nat))
  {
    StrlCpyTwice(name, MaxNameLen + 1, len as nat);
  }

  /** A name of at most 32 characters, read back into a big enough buffer, comes back whole. */
  lemma ShortProductNameRoundTrip(d: BootDevice, name: string, len: uint32)
    requires Inv(d)
    requires NUL !in name && |name| <= MaxNameLen
    requires len as int > |name|
    ensures GetProductName(SetProductName(d, name), len) == Some(name)
  {
    CStrOfPlain(name);
    ProductNameSetThenGet(d, name, len);
  }

  /** Feeding the stored firmware version back to its setter leaves the record as it is. */
  lemma FwVersionSetStored(d: BootDevice)
    requires Inv(d)
    ensures SetFwVersion(d, d.fwVersion) == d
  {
    CStrOfPlain(d.fwVersion);
  }

  /** Feeding the stored die id back to its setter leaves the record as it is. */
  lemma HufsDieidSetStored(d: BootDevice)
    requires Inv(d)
    ensures SetHufsDieid(d, d.hufsDieid) == d
  {
    CStrOfPlain(d.hufsDieid);
  }

  /* ------------------------------------------------------------------ */
  /* CID                                                                 */
  /* ------------------------------------------------------------------ */

  /** Four bytes as one 32-bit word, `b0` the least significant. */
  function Word(b0: uint8, b1: uint8, b2: uint8, b3: uint8): uint32
  {
    (b0 as int + 256 * (b1 as int + 256 * (b2 as int + 256 * b3 as int))) as uint32
  }

  /** Byte `k` of a word, counting from the least significant. */
  function ByteAt(w: nat, k: nat): uint8
  {
    if k == 0 then (w % 256) as uint8 else ByteAt(w / 256, k - 1)
  }

  /** The bytes of a word, most significant first: the order "%08x" prints them in. */
  function BytesBigEndian(w: uint32): (bs: seq<uint8>)
    ensures |bs| == 4
  {
    [ByteAt(w as nat, 3), ByteAt(w as nat, 2), ByteAt(w as nat, 1), ByteAt(w as nat, 0)]
  }

  /** A word built from four bytes gives those bytes back. */
  lemma WordBytes(b0: uint8, b1: uint8, b2: uint8, b3: uint8)
    ensures var w := Word(b0, b1, b2, b3) as nat;
      ByteAt(w, 0) == b0 && ByteAt(w, 1) == b1 && ByteAt(w, 2) == b2 && ByteAt(w, 3) == b3
  {
    var q2: nat := b2 as int + 256 * b3 as int;
    var q1: nat := b1 as int + 256 * q2;
    var w := Word(b0, b1, b2, b3) as nat;
    assert w == b0 as int + 256 * q1;
    SplitByte(q1, b0 as nat);
    SplitByte(q2, b1 as nat);
    SplitByte(b3 as nat, b2 as nat);
    assert ByteAt(w, 1) == ByteAt(q1, 0);
    assert ByteAt(w, 2) == ByteAt(q1, 1) == ByteAt(q2, 0);
    assert ByteAt(w, 3) == ByteAt(q1, 2) == ByteAt(q2, 1) == ByteAt(b3 as nat, 0);
  }

  /** A number as its low byte and the rest. */
  lemma SplitByte(hi: nat, lo: nat)
    requires lo < 256
    ensures (lo + 256 * hi) / 256 == hi && (lo + 256 * hi) % 256 == lo
  {
  }

  /**
   * A 32-bit word as memcpy leaves it in a u32 on this little-endian
   * platform: the byte at `i` is the least significant.
   */
  function LoadWord(bytes: seq<uint8>, i: nat): (r: uint32)
    requires i + 4 <= |bytes|
    ensures ByteAt(r as nat, 0) == bytes[i] && ByteAt(r as nat, 1) == bytes[i + 1]
    ensures ByteAt(r as nat, 2) == bytes[i + 2] && ByteAt(r as nat, 3) == bytes[i + 3]
  {
    WordBytes(bytes[i], bytes[i + 1], bytes[i + 2], bytes[i + 3]);
    Word(bytes[i], bytes[i + 1], bytes[i + 2], bytes[i + 3])
  }

  /** be32_to_cpu on a little-endian CPU: the byte order reversed. */
  function Be32ToCpu(w: uint32): (r: uint32)
    ensures ByteAt(r as nat, 0) == ByteAt(w as nat, 3) && ByteAt(r as nat, 1) == ByteAt(w as nat, 2)
    ensures ByteAt(r as nat, 2) == ByteAt(w as nat, 1) && ByteAt(r as nat, 3) == ByteAt(w as nat, 0)
  {
    WordBytes(ByteAt(w as nat, 3), ByteAt(w as nat, 2), ByteAt(w as nat, 1), ByteAt(w as nat, 0));
    Word(ByteAt(w as nat, 3), ByteAt(w as nat, 2), ByteAt(w as nat, 1), ByteAt(w as nat, 0))
  }

  /**
   * ((w & 0xffff) << 16) | ((w >> 16) & 0xffff): the low half moved up and
   * the high half moved down. The two halves do not overlap, so the or is a sum.
   */
  function SwapHalves(w: uint32): (r: uint32)
    ensures r as int % 0x1_0000 == w as int / 0x1_0000
    ensures r as int / 0x1_0000 == w as int % 0x1_0000
  {
    var lo := w as int % 0x1_0000;
    var hi := w as int / 0x1_0000;
    SplitHalves(lo, hi);
    (lo * 0x1_0000 + hi) as uint32
  }

  /** Swapping the 16-bit halves twice gives the word back. */
  lemma SwapHalvesInvolution(w: uint32)
    ensures SwapHalves(SwapHalves(w)) == w
  {
    var lo := w as int % 0x1_0000;
    var hi := w as int / 0x1_0000;
    assert hi < 0x1_0000;
    SplitHalves(lo, hi);
    assert w as int == hi * 0x1_0000 + lo;
  }

  /** A value below 2^32 as its high and low 16-bit halves. */
  lemma SplitHalves(hi: nat, lo: nat)
    requires lo < 0x1_0000
    ensures (hi * 0x1_0000 + lo) / 0x1_0000 == hi
    ensures (hi * 0x1_0000 + lo) % 0x1_0000 == lo
  {
  }

  /** In bytes, swapping the halves exchanges bytes 0,1 with bytes 2,3. */
  lemma SwapHalvesBytes(b0: uint8, b1: uint8, b2: uint8, b3: uint8)
    ensures SwapHalves(Word(b0, b1, b2, b3)) == Word(b2, b3, b0, b1)
  {
    var w := Word(b0, b1, b2, b3) as int;
    var lo := b0 as int + 256 * b1 as int;
    var hi := b2 as int + 256 * b3 as int;
    assert w == lo + 0x1_0000 * hi;
    assert w % 0x1_0000 == lo && w / 0x1_0000 == hi;
  }

  /** Two lower-case hex digits per byte, in order. */
  function HexBytes(bs: seq<uint8>): (s: string)
    ensures |s| == 2 * |bs|
  {
    if |bs| == 0 then "" else HexByte(bs[0]) + HexBytes(bs[1..])
  }

  /** "%08x" of a 32-bit word: its eight hex digits, most significant first. */
  function Hex8(w: uint32): (s: string)
    ensures |s| == 8
  {
    HexBytes(BytesBigEndian(w))
  }

  /** The order the CID text shows the 16 bytes of the unique number in. */
  function CidOrder(un: seq<uint8>): (r: seq<uint8>)
    requires |un| >= 16
    ensures |r| == 16
  {
    un[..12] + [un[13], un[12], un[15], un[14]]
  }

  /**
   * ufs_cid_show: with a host present, words 0-2 of the unique number taken
   * as big-endian, word 3 with its halves swapped, printed as "%08x" four
   * times and a newline; with no host, nothing. It always returns 0.
   */
  function CidShow(hbaPresent: bool, un: seq<uint8>): (text: string)
    requires |un| >= 16
    ensures !hbaPresent <==> text == ""
    ensures hbaPresent ==> |text| == 33 && text[32] == '\n'
  {
    if !hbaPresent then ""
    else
      var c0 := Be32ToCpu(LoadWord(un, 0));
      var c1 := Be32ToCpu(LoadWord(un, 4));
      var c2 := Be32ToCpu(LoadWord(un, 8));
      var c3 := SwapHalves(LoadWord(un, 12));
      Hex8(c0) + Hex8(c1) + Hex8(c2) + Hex8(c3) + "\n"
  }

  lemma {:induction false} HexBytesAppend(a: seq<uint8>, b: seq<uint8>)
    ensures HexBytes(a + b) == HexBytes(a) + HexBytes(b)
  {
    if |a| == 0 {
      assert a + b == b;
    } else {
      assert (a + b)[1..] == a[1..] + b;
      HexBytesAppend(a[1..], b);
    }
  }

  /** Words 0-2 print their four bytes in memory order. */
  lemma BigEndianWordBytes(un: seq<uint8>, i: nat)
    requires i + 4 <= |un|
    ensures BytesBigEndian(Be32ToCpu(LoadWord(un, i))) == un[i..i + 4]
  {
    WordBytes(un[i], un[i + 1], un[i + 2], un[i + 3]);
    WordBytes(un[i + 3], un[i + 2], un[i + 1], un[i]);
  }

  /** Word 3 prints bytes 13, 12, 15, 14. */
  lemma SwappedWordBytes(un: seq<uint8>)
    requires |un| >= 16
    ensures BytesBigEndian(SwapHalves(LoadWord(un, 12))) == [un[13], un[12], un[15], un[14]]
  {
    SwapHalvesBytes(un[12], un[13], un[14], un[15]);
    WordBytes(un[14], un[15], un[12], un[13]);
  }

  /**
   * The CID line shows bytes 0-11 of the unique number in memory order, then
   * bytes 13, 12, 15, 14, each as two hex digits.
   */
  lemma CidShowBytes(un: seq<uint8>)
    requires |un| >= 16
    ensures CidShow(true, un) == HexBytes(CidOrder(un)) + "\n"
  {
    BigEndianWordBytes(un, 0);
    BigEndianWordBytes(un, 4);
    BigEndianWordBytes(un, 8);
    SwappedWordBytes(un);
    var tail := [un[13], un[12], un[15], un[14]];
    assert CidOrder(un) == un[0..4] + un[4..8] + un[8..12] + tail;
    HexBytesAppend(un[0..4] + un[4..8] + un[8..12], tail);
    HexBytesAppend(un[0..4] + un[4..8], un[8..12]);
    HexBytesAppend(un[0..4], un[4..8]);
  }

  /** Reads pairs of hex digits back into bytes. */
  function ParseHexBytes(s: string): (r: Option<seq<uint8>>)
    ensures r.Some? ==> 2 * |r.value| == |s|
  {
    if |s| == 0 then Some([])
    else if |s| < 2 || !IsDigitIn(s[0], 16) || !IsDigitIn(s[1], 16) then None
    else match ParseHexBytes(s[2..])
      case None => None
      case Some(rest) =>
        Some([(DigitVal(s[0]).value * 16 + DigitVal(s[1]).value) as uint8] + rest)
  }

  lemma {:induction false} ParseHexBytesRoundTrip(bs: seq<uint8>)
    ensures ParseHexBytes(HexBytes(bs)) == Some(bs)
  {
    if |bs| > 0 {
      var s := HexBytes(bs);
      var h := HexByte(bs[0]);
      assert s == h + HexBytes(bs[1..]);
      assert s[2..] == HexBytes(bs[1..]);
      assert s[0] == h[0] && s[1] == h[1];
      assert IsDigitIn(h[0], 16) && IsDigitIn(h[1], 16);
      ParseHexBytesRoundTrip(bs[1..]);
      assert [bs[0]] + bs[1..] == bs;
    }
  }

  /** Reads a CID line back into the 16 bytes of the unique number. */
  function CidDecode(text: string): (r: Option<seq<uint8>>)
    ensures r.Some? ==> |r.value| == 16
  {
    if |text| != 33 || text[32] != '\n' then None
    else match ParseHexBytes(text[..32])
      case None => None
      case Some(shown) => Some(CidOrder(shown))
  }

  /** The CID line loses nothing: decoding it gives the 16 bytes back. */
  lemma CidRoundTrip(un: seq<uint8>)
    requires |un| == 16
    ensures CidDecode(CidShow(true, un)) == Some(un)
  {
    CidShowBytes(un);
    var shown := CidOrder(un);
    var text := HexBytes(shown) + "\n";
    assert text[..32] == HexBytes(shown);
    ParseHexBytesRoundTrip(shown);
    CidOrderInvolution(un);
  }

  /** Showing the bytes in CID order twice restores memory order. */
  lemma CidOrderInvolution(un: seq<uint8>)
    requires |un| == 16
    ensures CidOrder(CidOrder(un)) == un
  {
    var twice := CidOrder(CidOrder(un));
    forall i | 0 <= i < 16 ensures twice[i] == un[i] {
    }
  }

  /* ------------------------------------------------------------------ */
  /* Health descriptor shows                                             */
  /* ------------------------------------------------------------------ */

  /**
   * What ufshcd_read_health_desc hands back: its return code and the
   * descriptor buffer. The buffer is QUERY_DESC_HEALTH_DEF_SIZE bytes; that
   * constant is not part of this model, only that it reaches byte 4.
   */
  datatype HealthRead = HealthRead(err: int, desc: seq<uint8>)

  /** A show handler's return value and the text it printed. */
  datatype Shown = Shown(ret: int, text: string)

  const HealthErrorPrefix: string := "Reading Health Descriptor failed. err = "

  /** Reads back a "0x%02x\n" line. */
  function ParseHexLine(t: string): (r: Option<uint8>)
  {
    if |t| != 5 || t[..2] != "0x" || t[4] != '\n' then None
    else match ParseHexBytes(t[2..4])
      case None => None
      case Some(bs) => Some(bs[0])
  }

  /**
   * The shared body of the three health shows: with no host nothing happens;
   * a failed read prints the error and returns it; otherwise the byte at
   * `offset` is printed as "0x%02x\n" and 0 returned.
   */
  function HealthShow(hbaPresent: bool, read: HealthRead, offset: nat): (r: Shown)
    requires offset < |read.desc|
    ensures !hbaPresent ==> r == Shown(0, "")
    ensures hbaPresent && read.err != 0 ==> r.ret == read.err && HealthErrorPrefix <= r.text
    ensures hbaPresent && read.err != 0 ==> ParseHexLine(r.text).None?
    ensures hbaPresent && read.err == 0 ==> r.ret == 0 && ParseHexLine(r.text) == Some(read.desc[offset])
  {
    if !hbaPresent then Shown(0, "")
    else if read.err != 0 then
      var t := HealthErrorPrefix + SignedDecimal(read.err) + "\n";
      assert t[0] == 'R';
      Shown(read.err, t)
    else
      var t := "0x" + HexByte(read.desc[offset]) + "\n";
      ParseHexBytesRoundTrip([read.desc[offset]]);
      assert t[2..4] == HexBytes([read.desc[offset]]);
      Shown(0, t)
  }

  /** ufs_pre_eol_info_show: byte 2 of the health descriptor (bPreEOLInfo). */
  function PreEolInfoShow(hbaPresent: bool, read: HealthRead): (r: Shown)
    requires |read.desc| >= 5
    ensures hbaPresent && read.err == 0 ==> r.ret == 0 && ParseHexLine(r.text) == Some(read.desc[2])
    ensures hbaPresent && read.err != 0 ==> r.ret == read.err && ParseHexLine(r.text).None?
    ensures !hbaPresent ==> r == Shown(0, "")
  {
    HealthShow(hbaPresent, read, 2)
  }

  /** ufs_life_time_est_typ_a_show: byte 3 (bDeviceLifeTimeEstA). */
  function LifeTimeEstTypAShow(hbaPresent: bool, read: HealthRead): (r: Shown)
    requires |read.desc| >= 5
    ensures hbaPresent && read.err == 0 ==> r.ret == 0 && ParseHexLine(r.text) == Some(read.desc[3])
    ensures hbaPresent && read.err != 0 ==> r.ret == read.err && ParseHexLine(r.text).None?
    ensures !hbaPresent ==> r == Shown(0, "")
  {
    HealthShow(hbaPresent, read, 3)
  }

  /** ufs_life_time_est_typ_b_show: byte 4 (bDeviceLifeTimeEstB). */
  function LifeTimeEstTypBShow(hbaPresent: bool, read: HealthRead): (r: Shown)
    requires |read.desc| >= 5
    ensures hbaPresent && read.err == 0 ==> r.ret == 0 && ParseHexLine(r.text) == Some(read.desc[4])
    ensures hbaPresent && read.err != 0 ==> r.ret == read.err && ParseHexLine(r.text).None?
    ensures !hbaPresent ==> r == Shown(0, "")
  {
    HealthShow(hbaPresent, read, 4)
  }

  /** The value shown depends on the selected descriptor byte and nothing else. */
  lemma HealthShowOnlyReadsItsByte(hbaPresent: bool, a: HealthRead, b: HealthRead, offset: nat)
    requires offset < |a.desc| && offset < |b.desc|
    requires a.err == b.err && a.desc[offset] == b.desc[offset]
    ensures HealthShow(hbaPresent, a, offset) == HealthShow(hbaPresent, b, offset)
  {
  }
}
