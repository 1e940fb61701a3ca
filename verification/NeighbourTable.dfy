/**
The Windows neighbour table: a byte buffer with a row count and 24-byte rows of index,
physical address length, eight address bytes, IPv4 address and type.
*/
module NeighbourTable {
  import opened Addresses
  import opened Arith

  const ROW := 24

  /** binary.LittleEndian.Uint32 at an offset. */
  function Uint32At(buf: seq<byte>, off: nat): (v: nat)
    requires off + 4 <= |buf|
    ensures v < 0x1_0000_0000
  {
    buf[off] as nat + 256 * buf[off + 1] as nat + 65536 * buf[off + 2] as nat + 16777216 * buf[off + 3] as nat
  }

  function Offset(k: nat): nat {
    4 + k * ROW
  }

  /** Row k lies within the buffer and within the count its header gives. */
  predicate InTable(buf: seq<byte>, k: nat) {
    |buf| >= 4 && k < Uint32At(buf, 0) && Offset(k) + ROW <= |buf|
  }

  function PhysLen(buf: seq<byte>, k: nat): nat
    requires InTable(buf, k)
  {
    Uint32At(buf, Offset(k) + 4)
  }

  function Mac(buf: seq<byte>, k: nat): seq<byte>
    requires InTable(buf, k)
  {
    buf[Offset(k) + 8..Offset(k) + 14]
  }

  function Ip(buf: seq<byte>, k: nat): seq<byte>
    requires InTable(buf, k)
  {
    buf[Offset(k) + 16..Offset(k) + 20]
  }

  predicate Matches(buf: seq<byte>, k: nat, target: seq<byte>)
    requires InTable(buf, k)
  {
    PhysLen(buf, k) == 6 && Ip(buf, k) == target
  }

  // ---- Text of a hardware address ------------------------------------------------

  function Digit(d: nat): char
    requires d < 16
  {
    "0123456789abcdef"[d]
  }

  function Hex(x: byte): string {
    [Digit(x as nat / 16), Digit(x as nat % 16)]
  }

  /** HardwareAddr.String: two lower-case digits a byte, colons between. */
  function Text(mac: seq<byte>): string {
    if mac == [] then ""
    else if |mac| == 1 then Hex(mac[0])
    else Hex(mac[0]) + ":" + Text(mac[1..])
  }

  /** The value of a lower-case hexadecimal digit. */
  function DigitValue(ch: char): int {
    if '0' <= ch <= '9' then ch as int - '0' as int
    else if 'a' <= ch <= 'f' then ch as int - 'a' as int + 10
    else -1
  }

  lemma DigitByValue(d: nat)
    requires d < 16
    ensures DigitValue(Digit(d)) == d
  {
  }

  /** The text digit by digit: byte k is written at 3 * k, high digit first, with a colon after every byte but the
      last. */
  lemma {:induction false} TextByValue(mac: seq<byte>, k: nat)
    requires k < |mac|
    ensures |Text(mac)| == 3 * |mac| - 1
    ensures 16 * DigitValue(Text(mac)[3 * k]) + DigitValue(Text(mac)[3 * k + 1]) == mac[k] as int
    ensures 0 <= DigitValue(Text(mac)[3 * k]) < 16 && 0 <= DigitValue(Text(mac)[3 * k + 1]) < 16
    ensures k + 1 < |mac| ==> Text(mac)[3 * k + 2] == ':'
    decreases |mac|
  {
    DigitByValue(mac[0] as nat / 16);
    DigitByValue(mac[0] as nat % 16);
    if |mac| == 1 {
    } else {
      TextByValue(mac[1..], if k == 0 then 0 else k - 1);
    }
  }

  /** The words of the buffer are little-endian. */
  lemma LittleEndian(buf: seq<byte>, off: nat)
    requires off + 4 <= |buf|
    ensures Uint32At(buf, off) % 256 == buf[off] as nat
    ensures Uint32At(buf, off) / 256 % 256 == buf[off + 1] as nat
    ensures Uint32At(buf, off) / 65536 % 256 == buf[off + 2] as nat
    ensures Uint32At(buf, off) / 16777216 == buf[off + 3] as nat
  {
    var a, b, c, d := buf[off] as nat, buf[off + 1] as nat, buf[off + 2] as nat, buf[off + 3] as nat;
    FromDigits(a, b, c, d, Uint32At(buf, off));
  }

  const ZERO_TEXT := "00:00:00:00:00:00"

  predicate AllZero(mac: seq<byte>) {
    forall k :: 0 <= k < |mac| ==> mac[k] == 0
  }

  lemma HexInjective(x: byte, y: byte)
    ensures Hex(x) == Hex(y) ==> x == y
  {
    assert forall a: nat, b: nat :: a < 16 && b < 16 && Digit(a) == Digit(b) ==> a == b;
    if Hex(x) == Hex(y) {
      assert Hex(x)[0] == Hex(y)[0] && Hex(x)[1] == Hex(y)[1];
    }
  }

  /** Equal texts of equally long addresses: equal addresses. */
  lemma {:induction false} TextInjective(a: seq<byte>, b: seq<byte>)
    requires |a| == |b|
    ensures Text(a) == Text(b) ==> a == b
    decreases |a|
  {
    if |a| >= 1 && Text(a) == Text(b) {
      HexInjective(a[0], b[0]);
      assert Text(a)[..2] == Hex(a[0]) && Text(b)[..2] == Hex(b[0]);
      if |a| > 1 {
        assert Text(a)[3..] == Text(a[1..]) && Text(b)[3..] == Text(b[1..]);
        TextInjective(a[1..], b[1..]);
        assert a == [a[0]] + a[1..] && b == [b[0]] + b[1..];
      }
    }
  }

  /** The comparison with the zero text is the test for an all-zero address. */
  lemma ZeroTextExactly(mac: seq<byte>)
    requires |mac| == 6
    ensures Text(mac) == ZERO_TEXT <==> AllZero(mac)
  {
    var zero: seq<byte> := [0, 0, 0, 0, 0, 0];
    ZeroText();
    TextInjective(mac, zero);
    if AllZero(mac) {
      assert mac == zero;
    }
  }

  lemma TextCons(x: byte, rest: seq<byte>)
    requires rest != []
    ensures Text([x] + rest) == Hex(x) + ":" + Text(rest)
  {
    assert ([x] + rest)[1..] == rest;
  }

  lemma ZeroText()
    ensures Text([0, 0, 0, 0, 0, 0]) == ZERO_TEXT
  {
    HalfZero();
    var three: seq<byte> := [0, 0, 0];
    TextCons(0, three);
    TextCons(0, [0] + three);
    TextCons(0, [0] + ([0] + three));
    assert [0] + ([0] + ([0] + three)) == [0, 0, 0, 0, 0, 0];
    assert Hex(0) == "00";
    assert "00" + ":" + ("00" + ":" + ("00" + ":" + "00:00:00")) == ZERO_TEXT;
  }

  lemma HalfZero()
    ensures Text([0, 0, 0]) == "00:00:00"
  {
    TextCons(0, [0]);
    TextCons(0, [0] + [0]);
    assert [0] + ([0] + [0]) == [0, 0, 0];
    assert Text([0]) == "00" && Hex(0) == "00";
    assert "00" + ":" + ("00" + ":" + "00") == "00:00:00";
  }

  function Shown(mac: seq<byte>): string {
    if AllZero(mac) then "" else Text(mac)
  }

  // ---- parseIPNetTable -----------------------------------------------------------

  /** The result of the first matching row from k on. */
  function Search(buf: seq<byte>, target: seq<byte>, k: nat): string
    decreases if |buf| >= 4 && k < Uint32At(buf, 0) then Uint32At(buf, 0) - k else 0
  {
    if !InTable(buf, k) then ""
    else if Matches(buf, k, target) then Shown(Mac(buf, k))
    else Search(buf, target, k + 1)
  }

  /** Row k is the first row in range with a six-byte address and the target IP. */
  predicate FirstMatch(buf: seq<byte>, target: seq<byte>, k: nat) {
    && InTable(buf, k) && Matches(buf, k, target)
    && forall j: nat :: j < k ==> InTable(buf, j) && !Matches(buf, j, target)
  }

  /** The search finds the first match; a zero address there hides any later match; without a match it finds
      nothing. */
  lemma SearchFindsFirst(buf: seq<byte>, target: seq<byte>)
    ensures forall k: nat :: FirstMatch(buf, target, k) ==> Search(buf, target, 0) == Shown(Mac(buf, k))
    ensures (forall k: nat :: InTable(buf, k) ==> !Matches(buf, k, target)) ==> Search(buf, target, 0) == ""
  {
    forall k: nat | FirstMatch(buf, target, k) ensures Search(buf, target, 0) == Shown(Mac(buf, k)) {
      SearchReaches(buf, target, 0, k);
    }
    if forall k: nat :: InTable(buf, k) ==> !Matches(buf, k, target) {
      SearchMisses(buf, target, 0);
    }
  }

  lemma {:induction false} SearchReaches(buf: seq<byte>, target: seq<byte>, i: nat, k: nat)
    requires i <= k && FirstMatch(buf, target, k)
    ensures Search(buf, target, i) == Search(buf, target, k)
    decreases k - i
  {
    if i == k {
    } else {
      assert InTable(buf, i) && !Matches(buf, i, target);
      SearchReaches(buf, target, i + 1, k);
    }
  }

  lemma {:induction false} SearchMisses(buf: seq<byte>, target: seq<byte>, i: nat)
    requires forall k: nat :: InTable(buf, k) ==> !Matches(buf, k, target)
    ensures Search(buf, target, i) == ""
    decreases if |buf| >= 4 && i < Uint32At(buf, 0) then Uint32At(buf, 0) - i else 0
  {
    if !InTable(buf, i) {
    } else {
      SearchMisses(buf, target, i + 1);
    }
  }

  /** parseIPNetTable stays within the buffer, whatever it holds. */
  method ParseIPNetTable(buf: seq<byte>, target: seq<byte>) returns (r: string)
    ensures r == Search(buf, target, 0)
  {
    if |buf| < 4 {
      return "";
    }
    var n := Uint32At(buf, 0);
    var i := 0;
    while i < n
      invariant 0 <= i <= n
      invariant Search(buf, target, 0) == Search(buf, target, i)
    {
      var off := 4 + i * ROW;
      if off + ROW > |buf| {
        break;
      }
      assert InTable(buf, i) && off == Offset(i);
      var physLen := Uint32At(buf, off + 4);
      if physLen != 6 {
        i := i + 1;
        continue;
      }
      if buf[off + 16..off + 20] != target {
        i := i + 1;
        continue;
      }
      var mac := buf[off + 8..off + 14];
      ZeroTextExactly(mac);
      var s := Text(mac);
      if s == ZERO_TEXT {
        return "";
      }
      return s;
    }
    return "";
  }

  // ---- A table laid out from rows ---------------------------------------------------

  /** A row as the table builder takes it: an IPv4 address and a physical address of any length. */
  datatype Row = Row(ip: seq<byte>, mac: seq<byte>)

  function PutUint32LE(v: nat): seq<byte>
    requires v < 0x1_0000_0000
  {
    [(v % 256) as byte, (v / 256 % 256) as byte, (v / 65536 % 256) as byte, (v / 16777216) as byte]
  }

  /** copy into eight bytes. */
  function Pad8(mac: seq<byte>): (r: seq<byte>)
    ensures |r| == 8
    ensures forall k :: 0 <= k < 8 && k < |mac| ==> r[k] == mac[k]
  {
    if |mac| >= 8 then mac[..8] else mac + seq(8 - |mac|, _ => 0)
  }

  predicate ValidRow(r: Row) {
    |r.ip| == 4 && |r.mac| < 0x1_0000_0000
  }

  function RowBytes(r: Row): (b: seq<byte>)
    requires ValidRow(r)
    ensures |b| == ROW
  {
    [0, 0, 0, 0] + PutUint32LE(|r.mac|) + Pad8(r.mac) + r.ip + [0, 0, 0, 0]
  }

  function RowsBytes(rows: seq<Row>): (b: seq<byte>)
    requires forall k :: 0 <= k < |rows| ==> ValidRow(rows[k])
    ensures |b| == |rows| * ROW
  {
    if rows == [] then [] else RowsBytes(rows[..|rows| - 1]) + RowBytes(rows[|rows| - 1])
  }

  function Build(rows: seq<Row>): seq<byte>
    requires |rows| < 0x1_0000_0000 && forall k :: 0 <= k < |rows| ==> ValidRow(rows[k])
  {
    PutUint32LE(|rows|) + RowsBytes(rows)
  }

  /** A direct search of the rows. */
  function Direct(rows: seq<Row>, target: seq<byte>): string {
    if rows == [] then ""
    else if |rows[0].mac| == 6 && rows[0].ip == target then Shown(rows[0].mac)
    else Direct(rows[1..], target)
  }

  lemma ReadBack(v: nat, rest: seq<byte>)
    requires v < 0x1_0000_0000
    ensures Uint32At(PutUint32LE(v) + rest, 0) == v
  {
    assert v == v / 256 * 256 + v % 256;
    assert v / 256 == v / 65536 * 256 + v / 256 % 256;
    assert v / 65536 == v / 16777216 * 256 + v / 65536 % 256;
  }

  lemma {:induction false} RowAt(rows: seq<Row>, k: nat, j: nat)
    requires k < |rows| && j < ROW && forall i :: 0 <= i < |rows| ==> ValidRow(rows[i])
    ensures RowsBytes(rows)[k * ROW + j] == RowBytes(rows[k])[j]
    decreases |rows|
  {
    var n := |rows| - 1;
    if k < n {
      RowAt(rows[..n], k, j);
    }
  }

  /** The bytes of row k in a built table. */
  lemma BuiltBytes(rows: seq<Row>, k: nat)
    requires |rows| < 0x1_0000_0000 && k < |rows| && forall j :: 0 <= j < |rows| ==> ValidRow(rows[j])
    ensures InTable(Build(rows), k)
    ensures Build(rows)[Offset(k)..Offset(k) + ROW] == RowBytes(rows[k])
  {
    ReadBack(|rows|, RowsBytes(rows));
    forall j: nat | j < ROW ensures Build(rows)[Offset(k) + j] == RowBytes(rows[k])[j] {
      RowAt(rows, k, j);
    }
  }

  /** The fields of a row's bytes. */
  lemma RowFields(r: Row)
    requires ValidRow(r)
    ensures RowBytes(r)[4..8] == PutUint32LE(|r.mac|) && RowBytes(r)[8..16] == Pad8(r.mac)
        && RowBytes(r)[16..20] == r.ip
  {
  }

  /** Row k of a built table reads as the row it was laid out from. */
  lemma BuiltRow(rows: seq<Row>, k: nat, target: seq<byte>)
    requires |rows| < 0x1_0000_0000 && k < |rows| && forall j :: 0 <= j < |rows| ==> ValidRow(rows[j])
    ensures InTable(Build(rows), k)
    ensures Matches(Build(rows), k, target) <==> |rows[k].mac| == 6 && rows[k].ip == target
    ensures |rows[k].mac| == 6 ==> Mac(Build(rows), k) == rows[k].mac
  {
    BuiltBytes(rows, k);
    ReadsAsRow(Build(rows), k, rows[k]);
  }

  lemma ReadsAsRow(buf: seq<byte>, k: nat, r: Row)
    requires ValidRow(r) && InTable(buf, k) && buf[Offset(k)..Offset(k) + ROW] == RowBytes(r)
    ensures PhysLen(buf, k) == |r.mac| && Ip(buf, k) == r.ip
    ensures |r.mac| == 6 ==> Mac(buf, k) == r.mac
  {
    RowFields(r);
    var row := RowBytes(r);
    SubSlice(buf, Offset(k), ROW, 4, 8);
    SubSlice(buf, Offset(k), ROW, 8, 16);
    SubSlice(buf, Offset(k), ROW, 16, 20);
    LengthField(buf, Offset(k) + 4, |r.mac|);
    if |r.mac| == 6 {
      assert Mac(buf, k) == buf[Offset(k) + 8..Offset(k) + 16][..6] == Pad8(r.mac)[..6] == r.mac;
    }
  }

  lemma SubSlice(buf: seq<byte>, off: nat, size: nat, a: nat, b: nat)
    requires off + size <= |buf| && a <= b <= size
    ensures buf[off..off + size][a..b] == buf[off + a..off + b]
  {
    var s, t := buf[off..off + size][a..b], buf[off + a..off + b];
    forall j | 0 <= j < b - a ensures s[j] == t[j] {
      assert buf[off..off + size][a + j] == buf[off + (a + j)];
    }
  }

  lemma LengthField(buf: seq<byte>, off: nat, v: nat)
    requires off + 4 <= |buf| && v < 0x1_0000_0000 && buf[off..off + 4] == PutUint32LE(v)
    ensures Uint32At(buf, off) == v
  {
    ReadBack(v, []);
    var b := buf[off..off + 4];
    assert PutUint32LE(v) + [] == PutUint32LE(v) == b;
    assert Uint32At(b, 0) == v;
    assert b[0] == buf[off] && b[1] == buf[off + 1] && b[2] == buf[off + 2] && b[3] == buf[off + 3];
  }

  /** Round trip: on a table laid out from any rows the parser finds what a direct search of the rows finds. */
  lemma {:induction false} ParsesBuiltTables(rows: seq<Row>, target: seq<byte>, k: nat)
    requires |rows| < 0x1_0000_0000 && k <= |rows| && forall j :: 0 <= j < |rows| ==> ValidRow(rows[j])
    ensures Search(Build(rows), target, k) == Direct(rows[k..], target)
    decreases |rows| - k
  {
    ReadBack(|rows|, RowsBytes(rows));
    if k < |rows| {
      BuiltRow(rows, k, target);
      ParsesBuiltTables(rows, target, k + 1);
      assert rows[k..][0] == rows[k] && rows[k..][1..] == rows[k + 1..];
    }
  }
}
