/** The bytes that dataset digests are taken over, and the key fold: `crates/bench/src/checksum.rs`. */
module Checksum {
  import opened Machine
  import Utf8

  type Bytes = seq<int>

  const TWO_TO_64: nat := 0x1_0000_0000_0000_0000

  /** `Real` holds the bit pattern of a double. */
  datatype Cell = Null | Integer(value: int) | Real(bits: nat) | Text(text: string) | Blob(bytes: Bytes)

  /** The values a cell can have: 64-bit numbers, and lengths below 2^64. */
  predicate ValidCell(c: Cell) {
    match c
    case Null => true
    case Integer(value) => FitsI64(value)
    case Real(bits) => bits < TWO_TO_64
    case Text(text) => |Utf8.Encode(text)| < TWO_TO_64
    case Blob(bytes) => |bytes| < TWO_TO_64
  }

  // ---- Encoding ------------------------------------------------------------------------------

  /** The `k` low bytes of a number, least significant first. */
  function LittleEndian(n: nat, k: nat): (b: Bytes)
    ensures |b| == k
  {
    if k == 0 then [] else [n % 256] + LittleEndian(n / 256, k - 1)
  }

  /** `to_le_bytes` of a 64-bit number. */
  function Word(n: nat): (b: Bytes)
    ensures |b| == 8
  {
    LittleEndian(n, 8)
  }

  function TwosComplement(v: int): (n: nat)
    requires FitsI64(v)
    ensures n < TWO_TO_64
  {
    if v < 0 then v + TWO_TO_64 else v
  }

  /** A length and the bytes it counts. */
  function Counted(b: Bytes): Bytes {
    Word(|b|) + b
  }

  const TAG_NULL := 110
  const TAG_INTEGER := 105
  const TAG_REAL := 114
  const TAG_TEXT := 116
  const TAG_BLOB := 98

  /** What `encode_cell_for_digest` appends. */
  function EncodeCell(c: Cell): (b: Bytes)
    requires ValidCell(c)
    ensures b != []
  {
    match c
    case Null => [TAG_NULL]
    case Integer(value) => [TAG_INTEGER] + Word(TwosComplement(value))
    case Real(bits) => [TAG_REAL] + Word(bits)
    case Text(text) => [TAG_TEXT] + Counted(Utf8.Encode(text))
    case Blob(bytes) => [TAG_BLOB] + Counted(bytes)
  }

  predicate ValidCells(row: seq<Cell>) {
    forall i :: 0 <= i < |row| ==> ValidCell(row[i])
  }

  predicate ValidRows(rows: seq<seq<Cell>>) {
    forall i :: 0 <= i < |rows| ==> ValidCells(rows[i]) && |EncodeRow(rows[i])| < TWO_TO_64
  }

  function EncodeRow(row: seq<Cell>): Bytes
    requires ValidCells(row)
  {
    if row == [] then [] else EncodeCell(row[0]) + EncodeRow(row[1..])
  }

  const ROW_TAG := [114, 111, 119, 0]
  const PAYLOAD_TAG := [112, 97, 121, 108, 111, 97, 100, 0]

  function Frame(row: Bytes): Bytes {
    ROW_TAG + Counted(row)
  }

  function Frames(rows: seq<Bytes>): Bytes {
    if rows == [] then [] else Frame(rows[0]) + Frames(rows[1..])
  }

  function EncodeRows(rows: seq<seq<Cell>>): seq<Bytes>
    requires ValidRows(rows)
  {
    seq(|rows|, i requires 0 <= i < |rows| => EncodeRow(rows[i]))
  }

  // ---- The loops -----------------------------------------------------------------------------

  /** A hasher, as the bytes it has been given; the hash of them is left open. */
  class Hasher {
    var input: Bytes

    constructor ()
      ensures input == []
    {
      input := [];
    }

    method Update(bytes: Bytes)
      modifies this
      ensures input == old(input) + bytes
    {
      input := input + bytes;
    }
  }

  lemma {:induction false} FramesAppend(rows: seq<Bytes>, last: Bytes)
    ensures Frames(rows + [last]) == Frames(rows) + Frame(last)
  {
    hide Frame;
    if rows == [] {
      assert rows + [last] == [last];
    } else {
      assert (rows + [last])[1..] == rows[1..] + [last];
      FramesAppend(rows[1..], last);
    }
  }

  /** The loop of `payload_hash`. */
  method PayloadInput(rows: seq<Bytes>) returns (input: Bytes)
    ensures input == PAYLOAD_TAG + Frames(rows)
  {
    hide Word;
    var hasher := new Hasher();
    hasher.Update(PAYLOAD_TAG);
    for i := 0 to |rows|
      invariant hasher.input == PAYLOAD_TAG + Frames(rows[..i])
    {
      hasher.Update(ROW_TAG);
      hasher.Update(Word(|rows[i]|));
      hasher.Update(rows[i]);
      assert rows[..i + 1] == rows[..i] + [rows[i]];
      FramesAppend(rows[..i], rows[i]);
    }
    assert rows[..|rows|] == rows;
    input := hasher.input;
  }

  lemma {:induction false} EncodeRowAppend(row: seq<Cell>, last: Cell)
    requires ValidCells(row) && ValidCell(last)
    ensures EncodeRow(row + [last]) == EncodeRow(row) + EncodeCell(last)
  {
    hide EncodeCell;
    if row == [] {
      assert row + [last] == [last];
    } else {
      assert (row + [last])[1..] == row[1..] + [last];
      EncodeRowAppend(row[1..], last);
    }
  }

  /** The row buffer of `checksum_from_rows`. */
  method RowBuffer(row: seq<Cell>) returns (buffer: Bytes)
    requires ValidCells(row)
    ensures buffer == EncodeRow(row)
  {
    hide EncodeCell;
    buffer := [];
    for i := 0 to |row|
      invariant buffer == EncodeRow(row[..i])
    {
      buffer := buffer + EncodeCell(row[i]);
      assert row[..i + 1] == row[..i] + [row[i]];
      EncodeRowAppend(row[..i], row[i]);
    }
    assert row[..|row|] == row;
  }

  /** The digest input and the row payloads of `checksum_from_rows`. */
  method DigestInput(rows: seq<seq<Cell>>) returns (content: Bytes, payloads: seq<Bytes>)
    requires ValidRows(rows)
    ensures payloads == EncodeRows(rows) && content == Frames(EncodeRows(rows))
  {
    hide Frame, EncodeRow, Frames;
    content, payloads := [], [];
    FramesOfNothing();
    for i := 0 to |rows|
      invariant payloads == EncodeRows(rows)[..i] && content == Frames(payloads)
    {
      var buffer := RowBuffer(rows[i]);
      content := content + Frame(buffer);
      FramesAppend(payloads, buffer);
      payloads := payloads + [buffer];
    }
  }

  lemma FramesOfNothing()
    ensures Frames([]) == []
  {
  }

  // ---- No two tables have the same bytes -----------------------------------------------------

  function PowerOf256(k: nat): nat {
    if k == 0 then 1 else 256 * PowerOf256(k - 1)
  }

  /** The number that bytes spell, least significant first. */
  function Spelt(b: Bytes): int {
    if b == [] then 0 else b[0] + 256 * Spelt(b[1..])
  }

  /** The bytes are bytes, and spell the number. */
  lemma {:induction false} LittleEndianSpells(n: nat, k: nat)
    requires n < PowerOf256(k)
    ensures (forall b <- LittleEndian(n, k) :: 0 <= b < 256) && Spelt(LittleEndian(n, k)) == n
  {
    if k > 0 {
      LittleEndianSpells(n / 256, k - 1);
      assert LittleEndian(n, k)[1..] == LittleEndian(n / 256, k - 1);
    }
  }

  lemma {:induction false} LittleEndianInjective(m: nat, n: nat, k: nat)
    requires m < PowerOf256(k) && n < PowerOf256(k) && LittleEndian(m, k) == LittleEndian(n, k)
    ensures m == n
  {
    if k > 0 {
      assert LittleEndian(m, k)[0] == LittleEndian(n, k)[0];
      assert LittleEndian(m, k)[1..] == LittleEndian(n, k)[1..];
      LittleEndianInjective(m / 256, n / 256, k - 1);
    }
  }

  /** Equal concatenations with equal-length heads. */
  lemma SameHeads(a: Bytes, x: Bytes, b: Bytes, y: Bytes)
    requires |a| == |b| && a + x == b + y
    ensures a == b && x == y
  {
    assert a == (a + x)[..|a|] && b == (b + y)[..|b|];
    assert x == (a + x)[|a|..] && y == (b + y)[|b|..];
  }

  lemma WordPrefix(m: nat, x: Bytes, n: nat, y: Bytes)
    requires m < TWO_TO_64 && n < TWO_TO_64 && Word(m) + x == Word(n) + y
    ensures m == n && x == y
  {
    SameHeads(Word(m), x, Word(n), y);
    assert PowerOf256(8) == TWO_TO_64;
    LittleEndianInjective(m, n, 8);
  }

  lemma CountedPrefix(a: Bytes, x: Bytes, b: Bytes, y: Bytes)
    requires |a| < TWO_TO_64 && |b| < TWO_TO_64 && Counted(a) + x == Counted(b) + y
    ensures a == b && x == y
  {
    hide Word;
    assert Counted(a) + x == Word(|a|) + (a + x);
    assert Counted(b) + y == Word(|b|) + (b + y);
    WordPrefix(|a|, a + x, |b|, b + y);
    SameHeads(a, x, b, y);
  }

  /** What follows the tag. */
  function Body(c: Cell): Bytes
    requires ValidCell(c)
  {
    EncodeCell(c)[1..]
  }

  lemma TagsTellKinds(a: Cell, b: Cell)
    requires ValidCell(a) && ValidCell(b) && EncodeCell(a)[0] == EncodeCell(b)[0]
    ensures a.Null? == b.Null? && a.Integer? == b.Integer? && a.Real? == b.Real? && a.Text? == b.Text?
  {
  }

  /** No cell's encoding is the start of another's, whatever follows. */
  lemma CellsArePrefixFree(a: Cell, x: Bytes, b: Cell, y: Bytes)
    requires ValidCell(a) && ValidCell(b) && EncodeCell(a) + x == EncodeCell(b) + y
    ensures a == b && x == y
  {
    hide EncodeCell, ValidCell;
    assert (EncodeCell(a) + x)[0] == EncodeCell(a)[0] && (EncodeCell(b) + y)[0] == EncodeCell(b)[0];
    assert (EncodeCell(a) + x)[1..] == Body(a) + x && (EncodeCell(b) + y)[1..] == Body(b) + y;
    TagsTellKinds(a, b);
    BodiesArePrefixFree(a, x, b, y);
  }

  lemma BodiesArePrefixFree(a: Cell, x: Bytes, b: Cell, y: Bytes)
    requires ValidCell(a) && ValidCell(b) && Body(a) + x == Body(b) + y
    requires a.Null? == b.Null? && a.Integer? == b.Integer? && a.Real? == b.Real? && a.Text? == b.Text?
    ensures a == b && x == y
  {
    hide Word, Counted, Utf8.Encode;
    match a {
      case Null =>
        assert Body(a) + x == x && Body(b) + y == y;
      case Integer(v) =>
        assert Body(a) == Word(TwosComplement(v)) && Body(b) == Word(TwosComplement(b.value));
        WordPrefix(TwosComplement(v), x, TwosComplement(b.value), y);
      case Real(bits) =>
        assert Body(a) == Word(bits) && Body(b) == Word(b.bits);
        WordPrefix(bits, x, b.bits, y);
      case Text(text) =>
        assert Body(a) == Counted(Utf8.Encode(text)) && Body(b) == Counted(Utf8.Encode(b.text));
        CountedPrefix(Utf8.Encode(text), x, Utf8.Encode(b.text), y);
        Utf8.EncodeIsInjective(text, b.text);
      case Blob(bytes) =>
        assert Body(a) == Counted(bytes) && Body(b) == Counted(b.bytes);
        CountedPrefix(bytes, x, b.bytes, y);
    }
  }

  lemma {:induction false} RowsEncodeApart(a: seq<Cell>, b: seq<Cell>)
    requires ValidCells(a) && ValidCells(b) && EncodeRow(a) == EncodeRow(b)
    ensures a == b
    decreases |a|
  {
    hide EncodeCell, ValidCell;
    if a != [] && b != [] {
      CellsArePrefixFree(a[0], EncodeRow(a[1..]), b[0], EncodeRow(b[1..]));
      RowsEncodeApart(a[1..], b[1..]);
      assert a == [a[0]] + a[1..] && b == [b[0]] + b[1..];
    }
  }

  ghost predicate Countable(rows: seq<Bytes>) {
    forall i :: 0 <= i < |rows| ==> |rows[i]| < TWO_TO_64
  }

  lemma {:induction false} FramesApart(a: seq<Bytes>, b: seq<Bytes>)
    requires Frames(a) == Frames(b) && Countable(a) && Countable(b)
    ensures a == b
    decreases |a|
  {
    hide Counted;
    if a != [] && b != [] {
      assert Frames(a) == ROW_TAG + (Counted(a[0]) + Frames(a[1..]));
      assert Frames(b) == ROW_TAG + (Counted(b[0]) + Frames(b[1..]));
      SameHeads(ROW_TAG, Counted(a[0]) + Frames(a[1..]), ROW_TAG, Counted(b[0]) + Frames(b[1..]));
      CountedPrefix(a[0], Frames(a[1..]), b[0], Frames(b[1..]));
      FramesApart(a[1..], b[1..]);
      assert a == [a[0]] + a[1..] && b == [b[0]] + b[1..];
    }
  }

  /** Different tables never hash the same bytes, as content or as payload. */
  lemma DigestsFrameApart(a: seq<seq<Cell>>, b: seq<seq<Cell>>)
    requires ValidRows(a) && ValidRows(b)
    requires Frames(EncodeRows(a)) == Frames(EncodeRows(b)) ||
             PAYLOAD_TAG + Frames(EncodeRows(a)) == PAYLOAD_TAG + Frames(EncodeRows(b))
    ensures a == b
  {
    hide Frames, EncodeRow;
    if Frames(EncodeRows(a)) != Frames(EncodeRows(b)) {
      SameHeads(PAYLOAD_TAG, Frames(EncodeRows(a)), PAYLOAD_TAG, Frames(EncodeRows(b)));
    }
    FramesApart(EncodeRows(a), EncodeRows(b));
    forall i | 0 <= i < |a|
      ensures a[i] == b[i]
    {
      assert EncodeRows(a)[i] == EncodeRows(b)[i];
      RowsEncodeApart(a[i], b[i]);
    }
  }

  /** The input of `row_hash` is never the input of `payload_hash`. */
  lemma RowAndPayloadInputsDiffer(row: Bytes, rows: seq<Bytes>)
    ensures Frame(row) != PAYLOAD_TAG + Frames(rows)
  {
    assert Frame(row)[0] == 114 && (PAYLOAD_TAG + Frames(rows))[0] == 112;
  }

  // ---- The key fold --------------------------------------------------------------------------

  function Xor(a: bv64, b: bv64): bv64 {
    a ^ b
  }

  function XorAll(keys: seq<bv64>): bv64 {
    if keys == [] then 0 else Xor(keys[0], XorAll(keys[1..]))
  }

  lemma XorLaws(a: bv64, b: bv64, c: bv64)
    ensures Xor(Xor(a, b), c) == Xor(a, Xor(b, c)) && Xor(a, b) == Xor(b, a)
    ensures Xor(a, 0) == a && Xor(0, a) == a && (Xor(a, b) == b <==> a == 0)
  {
    hide Xor;
    XorAssociates(a, b, c);
    XorCommutes(a, b);
    XorWithZero(a);
    XorCancels(a, b);
  }

  lemma XorAssociates(a: bv64, b: bv64, c: bv64)
    ensures Xor(Xor(a, b), c) == Xor(a, Xor(b, c))
  {
  }

  lemma XorCommutes(a: bv64, b: bv64)
    ensures Xor(a, b) == Xor(b, a)
  {
  }

  lemma XorWithZero(a: bv64)
    ensures Xor(a, 0) == a && Xor(0, a) == a
  {
  }

  lemma XorCancels(a: bv64, b: bv64)
    ensures Xor(a, b) == b <==> a == 0
  {
    hide Xor;
    XorAssociates(a, b, b);
    XorWithItself(b);
    XorWithZero(a);
    XorWithZero(b);
  }

  lemma XorWithItself(a: bv64)
    ensures Xor(a, a) == 0
  {
  }

  lemma {:induction false} XorSplits(a: seq<bv64>, b: seq<bv64>)
    ensures XorAll(a + b) == Xor(XorAll(a), XorAll(b))
  {
    hide Xor;
    if a == [] {
      assert a + b == b;
      XorLaws(XorAll(b), 0, 0);
    } else {
      assert (a + b)[1..] == a[1..] + b;
      XorSplits(a[1..], b);
      XorLaws(a[0], XorAll(a[1..]), XorAll(b));
    }
  }

  lemma XorOfOne(k: bv64)
    ensures XorAll([k]) == k
  {
  }

  /** `key_xor`. */
  method KeyXor(keys: seq<bv64>) returns (acc: bv64)
    ensures acc == XorAll(keys)
  {
    hide Xor;
    acc := 0;
    for i := 0 to |keys|
      invariant acc == XorAll(keys[..i])
    {
      assert keys[..i + 1] == keys[..i] + [keys[i]];
      XorSplits(keys[..i], [keys[i]]);
      XorOfOne(keys[i]);
      acc := Xor(acc, keys[i]);
    }
    assert keys[..|keys|] == keys;
  }

  function Without(keys: seq<bv64>, i: nat): seq<bv64>
    requires i < |keys|
  {
    keys[..i] + keys[i + 1..]
  }

  lemma PullOut(keys: seq<bv64>, i: nat)
    requires i < |keys|
    ensures XorAll(keys) == Xor(keys[i], XorAll(Without(keys, i)))
  {
    hide Xor, XorAll;
    var k, before, after := keys[i], keys[..i], keys[i + 1..];
    assert keys == before + ([k] + after);
    XorSplits(before, [k] + after);
    XorSplits([k], after);
    XorSplits(before, after);
    XorOfOne(k);
    XorLaws(XorAll(before), k, XorAll(after));
    XorLaws(k, XorAll(before), XorAll(after));
  }

  lemma PulledOut(keys: seq<bv64>, i: nat)
    requires i < |keys|
    ensures multiset(keys) == multiset(Without(keys, i)) + multiset{keys[i]}
  {
    assert keys == keys[..i] + ([keys[i]] + keys[i + 1..]);
  }

  /** The fold does not depend on the order of the scan. */
  lemma {:induction false} XorIgnoresOrder(a: seq<bv64>, b: seq<bv64>)
    requires multiset(a) == multiset(b)
    ensures XorAll(a) == XorAll(b)
    decreases |a|
  {
    hide Xor, XorAll, Without;
    if a == [] {
      assert |multiset(b)| == 0;
      assert b == [];
    } else {
      assert a[0] in multiset(b);
      var i :| 0 <= i < |b| && b[i] == a[0];
      PullOut(a, 0);
      PulledOut(a, 0);
      PullOut(b, i);
      PulledOut(b, i);
      assert multiset(Without(a, 0)) == multiset(a) - multiset{a[0]};
      assert multiset(Without(b, i)) == multiset(b) - multiset{a[0]};
      Shorter(a);
      XorIgnoresOrder(Without(a, 0), Without(b, i));
    }
  }

  lemma Shorter(a: seq<bv64>)
    requires a != []
    ensures |Without(a, 0)| < |a|
  {
  }

  /** A missing key changes the fold exactly when it is not zero; so does a repeated one. */
  lemma MissingKeyShowsExactly(keys: seq<bv64>, i: nat)
    requires i < |keys|
    ensures XorAll(Without(keys, i)) != XorAll(keys) <==> keys[i] != 0
    ensures XorAll(keys + [keys[i]]) != XorAll(keys) <==> keys[i] != 0
  {
    hide Xor, XorAll, Without;
    PullOut(keys, i);
    XorSplits(keys, [keys[i]]);
    XorOfOne(keys[i]);
    XorLaws(keys[i], XorAll(Without(keys, i)), 0);
    XorLaws(XorAll(keys), keys[i], 0);
    XorLaws(keys[i], XorAll(keys), 0);
  }

  /** The first key of a table without integer keys is row number zero, and goes unnoticed. */
  lemma ZeroKeyGoesUnnoticed()
    ensures XorAll([0, 1]) == XorAll([1])
  {
  }

  // ---- Merging shards ------------------------------------------------------------------------

  datatype Axes = Axes(rowCount: nat, keyXor: bv64)

  function SaturatingAdd(a: nat, b: nat): nat {
    if a + b < TWO_TO_64 then a + b else TWO_TO_64 - 1
  }

  /** `merge` on the row-count and key axes. */
  function Merge(a: Axes, b: Axes): Axes {
    Axes(SaturatingAdd(a.rowCount, b.rowCount), Xor(a.keyXor, b.keyXor))
  }

  function AxesOf(keys: seq<bv64>): Axes {
    Axes(|keys|, XorAll(keys))
  }

  lemma MergeIsAssociativeAndCommutative(a: Axes, b: Axes, c: Axes)
    ensures Merge(Merge(a, b), c) == Merge(a, Merge(b, c))
    ensures Merge(a, b) == Merge(b, a)
  {
    hide Xor;
    XorLaws(a.keyXor, b.keyXor, c.keyXor);
  }

  function MergeAll(shards: seq<Axes>): Axes
    requires shards != []
  {
    if |shards| == 1 then shards[0] else Merge(shards[0], MergeAll(shards[1..]))
  }

  function TotalCount(shards: seq<Axes>): nat {
    if shards == [] then 0 else shards[0].rowCount + TotalCount(shards[1..])
  }

  /** Any number of shards merge to the sum of their counts, or to `u64::MAX` when it does not fit. */
  lemma {:induction false} CountsAddUp(shards: seq<Axes>)
    requires shards != [] && forall a <- shards :: a.rowCount <= 0xFFFF_FFFF_FFFF_FFFF
    ensures MergeAll(shards).rowCount ==
            if TotalCount(shards) <= 0xFFFF_FFFF_FFFF_FFFF then TotalCount(shards) else 0xFFFF_FFFF_FFFF_FFFF
    decreases |shards|
  {
    hide Xor;
    if |shards| == 1 {
      assert shards[1..] == [] && TotalCount(shards[1..]) == 0;
    } else {
      CountsAddUp(shards[1..]);
    }
  }

  /** Merging the shards of a scan, in any order, gives the checksum of the scan. */
  lemma ShardsMergeToWhole(a: seq<bv64>, b: seq<bv64>, whole: seq<bv64>)
    requires multiset(whole) == multiset(a) + multiset(b) && |whole| < TWO_TO_64
    ensures Merge(AxesOf(a), AxesOf(b)) == AxesOf(whole)
  {
    hide Xor, XorAll;
    assert multiset(a + b) == multiset(whole);
    assert |multiset(a + b)| == |a + b| && |multiset(whole)| == |whole|;
    XorIgnoresOrder(whole, a + b);
    XorSplits(a, b);
  }

  // ---- Merging payload hashes ----------------------------------------------------------------

  /** The bytes hashed when two payload hashes are merged. */
  function MergeInput(a: nat, b: nat): Bytes {
    PAYLOAD_TAG + Frames([Word(a), Word(b)])
  }

  /** The merged payload hash, for any hash function folded to 64 bits. */
  function Folded(hash: Bytes -> nat, a: nat, b: nat): (r: nat)
    ensures r < TWO_TO_64
  {
    hash(MergeInput(a, b)) % TWO_TO_64
  }

  /** Two different inputs with the same hash. */
  predicate Collide(hash: Bytes -> nat, x: Bytes, y: Bytes) {
    x != y && hash(x) % TWO_TO_64 == hash(y) % TWO_TO_64
  }

  lemma MergeInputsApart(a: nat, b: nat, c: nat, d: nat)
    requires a < TWO_TO_64 && b < TWO_TO_64 && c < TWO_TO_64 && d < TWO_TO_64
    ensures MergeInput(a, b) == MergeInput(c, d) <==> a == c && b == d
  {
    hide Frames, Word;
    if MergeInput(a, b) == MergeInput(c, d) {
      var x, y := [Word(a), Word(b)], [Word(c), Word(d)];
      SameHeads(PAYLOAD_TAG, Frames(x), PAYLOAD_TAG, Frames(y));
      FramesApart(x, y);
      assert x[0] == y[0] && x[1] == y[1];
      WordPrefix(a, [], c, []);
      WordPrefix(b, [], d, []);
    }
  }

  /**
   Merging payload hashes is said to be associative. The two nestings hash the same bytes exactly
   when both inner merges give back an operand, and agree exactly then or by a collision.
   */
  lemma PayloadMergeAssociatesExactly(hash: Bytes -> nat, a: nat, b: nat, c: nat)
    requires a < TWO_TO_64 && b < TWO_TO_64 && c < TWO_TO_64
    ensures var ab, bc := Folded(hash, a, b), Folded(hash, b, c);
            && (MergeInput(ab, c) == MergeInput(a, bc) <==> ab == a && bc == c)
            && (Folded(hash, ab, c) == Folded(hash, a, bc) <==>
                (ab == a && bc == c) || Collide(hash, MergeInput(ab, c), MergeInput(a, bc)))
  {
    hide MergeInput;
    MergeInputsApart(Folded(hash, a, b), c, a, Folded(hash, b, c));
  }

  /** Merging in the other order hashes other bytes, unless the two are equal. */
  lemma PayloadMergeIsOrdered(a: nat, b: nat)
    requires a < TWO_TO_64 && b < TWO_TO_64
    ensures MergeInput(a, b) == MergeInput(b, a) <==> a == b
  {
    hide MergeInput;
    MergeInputsApart(a, b, b, a);
  }

  /** A hash that counts up the first byte of the first operand: the two nestings differ. */
  lemma PayloadMergeIsNotAssociative()
    ensures var hash := (bytes: Bytes) => if |bytes| > 20 && bytes[20] >= 0 then bytes[20] + 1 else 0;
            Folded(hash, Folded(hash, 0, 0), 0) == 2 && Folded(hash, 0, Folded(hash, 0, 0)) == 1
  {
    hide MergeInput;
    FirstByte(0, 0);
    FirstByte(1, 0);
    FirstByte(0, 1);
  }

  lemma FirstByte(a: nat, b: nat)
    requires a < 256
    ensures |MergeInput(a, b)| > 20 && MergeInput(a, b)[20] == a
  {
    hide Word;
    var rows := [Word(a), Word(b)];
    assert Frames(rows) == Frame(Word(a)) + Frames(rows[1..]);
    assert MergeInput(a, b)[20] == Frames(rows)[12] == Frame(Word(a))[12] == Word(a)[0];
    LowByte(a);
  }

  lemma LowByte(a: nat)
    requires a < 256
    ensures Word(a)[0] == a
  {
  }
}
