/** The packed joint-command buffer (HuboCmd/src/hubo_cmd_c.c): a header, then one 32-byte record per joint, or, when
    compressed, one per joint set in the header's bitmap. The header's fields are kept apart from the bytes behind it.
    */
module CommandBuffer {
  import opened PathTypes

  type Byte = b: int | 0 <= b < 256 witness 0

  /** sizeof(hubo_cmd_header_t): 16-byte code, pid, compression flag, joint count and bitmap. */
  const HEADER_SIZE: nat := 29

  /** sizeof(hubo_joint_cmd_t): mode, position, base torque and two gains. */
  const RECORD_SIZE: nat := 32

  const HEADER_CODE: string := "CMDHEADER_V0.01"

  const IGNORE: int := 0
  const CLAIM: int := 4
  const RELEASE: int := 5

  datatype Error = DataOkay | OutOfBounds | ReadOnly | UnavailableIndex | MalformedHeader

  datatype Result<T> = Success(value: T) | Failure(error: Error)

  type Record = r: seq<Byte> | |r| == RECORD_SIZE witness Repeated(0, RECORD_SIZE)

  /** The mode is the first four bytes, least significant first. */
  function ModeOf(record: Record): int {
    record[0] as int + 0x100 * (record[1] as int) + 0x1_0000 * (record[2] as int) + 0x100_0000 * (record[3] as int)
  }

  function WithMode(record: Record, mode: Byte): (changed: Record)
    ensures ModeOf(changed) == mode
    ensures changed[4..] == record[4..]
  {
    [mode, 0, 0, 0] + record[4..]
  }

  /** The number of set bits below k. */
  function Rank(bitmap: Bitmap, k: nat): (rank: nat)
    requires k <= JOINT_MAX
    ensures rank <= k
  {
    if k == 0 then 0 else Rank(bitmap, k - 1) + (if bitmap[k - 1] then 1 else 0)
  }

  lemma {:induction false} RankGrows(bitmap: Bitmap, j: nat, k: nat)
    requires j < k <= JOINT_MAX
    ensures Rank(bitmap, j) + (if bitmap[j] then 1 else 0) <= Rank(bitmap, k)
  {
    if j + 1 < k {
      RankGrows(bitmap, j, k - 1);
    }
  }

  function MessageSize(joints: nat): nat {
    HEADER_SIZE + joints * RECORD_SIZE
  }

  /** The contents of a buffer. */
  datatype View = View(
    code: string, pid: nat, isCompressed: nat, total: nat, bitmap: Bitmap, body: seq<Byte>) {

    /** Records the buffer has room for. */
    predicate HoldsRecords(n: nat) {
      n * RECORD_SIZE <= |body|
    }

    /** A buffer as the program allocates or receives it; the bitmap has a bit for every joint. */
    predicate Valid() {
      total <= JOINT_MAX && HoldsRecords(if isCompressed == 1 then Rank(bitmap, total) else total)
    }

    predicate HeaderOkay() {
      code == HEADER_CODE
    }

    function RecordAt(i: nat): Record
      requires HoldsRecords(i + 1)
    {
      body[i * RECORD_SIZE..(i + 1) * RECORD_SIZE]
    }

    /** hubo_cmd_data_check_if_joint_is_set, as a yes or no. */
    predicate IsSet(j: nat)
      requires Valid()
    {
      j < total && bitmap[j]
    }

    /** hubo_cmd_data_get_joint_cmd: by rank in a compressed buffer, by index otherwise. */
    function Get(j: nat): Result<Record>
      requires Valid()
    {
      if total <= j then Failure(OutOfBounds)
      else if isCompressed == 1 then
        if !bitmap[j] then Failure(UnavailableIndex)
        else
          RankGrows(bitmap, j, total);
          Success(RecordAt(Rank(bitmap, j)))
      else if isCompressed == 0 then Success(RecordAt(j))
      else Failure(MalformedHeader)
    }

    /** hubo_cmd_data_get_size. */
    function Size(): nat
      requires Valid()
    {
      if !HeaderOkay() then 0
      else MessageSize(if isCompressed == 0 then total else Rank(bitmap, total))
    }

    /** hubo_cmd_data_get_min_data_size. */
    function MinSize(): nat
      requires Valid()
    {
      if !HeaderOkay() then 0
      else MessageSize(if isCompressed == 1 then Rank(bitmap, total) else total)
    }
  }

  /** The two size functions disagree exactly on a flag that is neither 0 nor 1, unless every joint is set. */
  lemma SizesAgree(view: View)
    requires view.Valid()
    ensures view.Size() == view.MinSize() <==>
      !view.HeaderOkay() || view.isCompressed <= 1 || Rank(view.bitmap, view.total) == view.total
  {}

  /** A buffer for one joint that is not set, with a compression flag of 2: its sizes differ, and it cannot be read. */
  lemma FlagTwoSplitsSizes(view: View)
    requires view == View(HEADER_CODE, 0, 2, 1, Repeated(false, JOINT_MAX), Repeated(0, RECORD_SIZE))
    ensures view.Valid() && view.Size() == HEADER_SIZE && view.MinSize() == HEADER_SIZE + RECORD_SIZE
    ensures view.Get(0) == Failure(MalformedHeader)
  {
    assert Rank(view.bitmap, 1) == 0;
  }

  // ----- Compression -----

  /** The records of the set joints below k, one after the other. */
  function Packed(view: View, k: nat): (bytes: seq<Byte>)
    requires k <= JOINT_MAX && view.HoldsRecords(k)
    ensures |bytes| == Rank(view.bitmap, k) * RECORD_SIZE
  {
    if k == 0 then []
    else Packed(view, k - 1) + (if view.bitmap[k - 1] then view.RecordAt(k - 1) else [])
  }

  /** A set joint's record sits at its rank. */
  lemma {:induction false} PackedAt(view: View, k: nat, j: nat)
    requires j < k <= JOINT_MAX && view.HoldsRecords(k) && view.bitmap[j]
    ensures Rank(view.bitmap, j) < Rank(view.bitmap, k)
    ensures var r := Rank(view.bitmap, j);
      Packed(view, k)[r * RECORD_SIZE..(r + 1) * RECORD_SIZE] == view.RecordAt(j)
  {
    if j + 1 < k {
      PackedAt(view, k - 1, j);
    }
  }

  /** hubo_cmd_data_compressor: what becomes of the destination, and the number returned: 0 for a refusal, the number of
      joints for a compression, the byte size for a copy of data that was compressed already. */
  function Compressed(destination: View, source: View): (View, nat)
    requires destination.Valid() && source.Valid() && destination.HoldsRecords(destination.total)
  {
    if !source.HeaderOkay() || !destination.HeaderOkay() || destination.total < source.total then (destination, 0)
    else if source.isCompressed == 1 then
      var n := Rank(source.bitmap, source.total) * RECORD_SIZE;
      var copy := source.(body := source.body[..n] + destination.body[n..]);
      (copy, copy.Size())
    else
      var packed := Packed(source, source.total);
      (source.(isCompressed := 1, body := packed + destination.body[|packed|..]), Rank(source.bitmap, source.total))
  }

  /** A compression that is not refused. */
  predicate Compresses(destination: View, source: View) {
    && destination.Valid() && source.Valid() && destination.HoldsRecords(destination.total)
    && source.HeaderOkay() && destination.HeaderOkay() && source.total <= destination.total
    && source.isCompressed == 0
  }

  /** Compressing and reading back gives every set joint the record it had, refuses the others, returns the number of
      set joints, and writes no byte beyond the size both size functions report. */
  lemma CompressionRoundTrip(destination: View, source: View, j: nat)
    requires Compresses(destination, source)
    ensures var (result, count) := Compressed(destination, source);
      && result.Valid()
      && result.Get(j) == (if source.total <= j then Failure(OutOfBounds)
                           else if source.bitmap[j] then source.Get(j)
                           else Failure(UnavailableIndex))
      && count == Rank(source.bitmap, source.total)
      && result.Size() == result.MinSize() == MessageSize(count)
      && |result.body| == |destination.body|
      && result.body[count * RECORD_SIZE..] == destination.body[count * RECORD_SIZE..]
  {
    if j < source.total && source.bitmap[j] {
      CompressedRecord(destination, source, j);
    }
  }

  lemma CompressedRecord(destination: View, source: View, j: nat)
    requires Compresses(destination, source) && j < source.total && source.bitmap[j]
    ensures var (result, count) := Compressed(destination, source); var r := Rank(source.bitmap, j);
      r < count && result.HoldsRecords(r + 1) && result.RecordAt(r) == source.RecordAt(j)
  {
    hide Packed;
    var (result, count) := Compressed(destination, source);
    var r := Rank(source.bitmap, j);
    PackedAt(source, source.total, j);
    assert result.RecordAt(r) == Packed(source, source.total)[r * RECORD_SIZE..(r + 1) * RECORD_SIZE];
  }

  /** Data that is compressed already is copied: it reads the same, and its size in bytes is returned where compressing
      returns a number of joints. A wrong header on either side, or a robot with more joints, is refused. */
  lemma OtherwiseCopiesOrRefuses(destination: View, source: View, j: nat)
    requires destination.Valid() && source.Valid() && destination.HoldsRecords(destination.total)
    ensures var (result, count) := Compressed(destination, source);
      if destination.code != HEADER_CODE || source.code != HEADER_CODE || destination.total < source.total then
        result == destination && count == 0
      else
        source.isCompressed == 1 ==>
          && result.Valid() && result.Get(j) == source.Get(j)
          && result == source.(body := result.body) && |result.body| == |destination.body|
          && count == 29 + 32 * Rank(source.bitmap, source.total)
  {
    if CopiesFrom(destination, source) && j < source.total && source.bitmap[j] {
      CopiedRecord(destination, source, j);
    }
  }

  predicate CopiesFrom(destination: View, source: View) {
    && destination.Valid() && source.Valid() && destination.HoldsRecords(destination.total)
    && source.HeaderOkay() && destination.HeaderOkay() && source.total <= destination.total
    && source.isCompressed == 1
  }

  lemma CopiedRecord(destination: View, source: View, j: nat)
    requires CopiesFrom(destination, source) && j < source.total && source.bitmap[j]
    ensures var result, r := Compressed(destination, source).0, Rank(source.bitmap, j);
      source.HoldsRecords(r + 1) && result.HoldsRecords(r + 1) && result.RecordAt(r) == source.RecordAt(r)
  {
    RankGrows(source.bitmap, j, source.total);
  }

  // ----- Unregistering released joints -----

  /** What unregistering makes of one record. */
  function Retired(record: Record): Record {
    if ModeOf(record) == RELEASE then WithMode(record, IGNORE) else record
  }

  /** `after` is `before` with every released joint below k taken out of the bitmap and set to be ignored. */
  predicate UnregisteredBelow(before: View, after: View, k: nat) {
    && before.Valid() && k <= before.total && before.isCompressed != 1
    && after == before.(bitmap := after.bitmap, body := after.body)
    && |after.body| == |before.body|
    && (forall i :: 0 <= i < k ==> after.RecordAt(i) == Retired(before.RecordAt(i)))
    && (forall i :: 0 <= i < k ==> after.bitmap[i] == (before.bitmap[i] && ModeOf(before.RecordAt(i)) != RELEASE))
    && after.body[k * RECORD_SIZE..] == before.body[k * RECORD_SIZE..]
    && after.bitmap[k..] == before.bitmap[k..]
  }

  /** The predicate leaves no freedom. */
  lemma UnregisteredIsUnique(before: View, after: View, after': View, k: nat)
    requires UnregisteredBelow(before, after, k) && UnregisteredBelow(before, after', k)
    ensures after == after'
  {
    forall i | 0 <= i < |before.body|
      ensures after.body[i] == after'.body[i]
    {
      SameByte(before, after, after', k, i);
    }
    assert after.body == after'.body;
    forall i | 0 <= i < JOINT_MAX
      ensures after.bitmap[i] == after'.bitmap[i]
    {}
    assert after.bitmap == after'.bitmap;
  }

  lemma SameByte(before: View, after: View, after': View, k: nat, i: nat)
    requires UnregisteredBelow(before, after, k) && UnregisteredBelow(before, after', k) && i < |before.body|
    ensures after.body[i] == after'.body[i]
  {
    hide Retired, ModeOf;
    var r := i / RECORD_SIZE;
    if r < k {
      assert after.RecordAt(r) == after'.RecordAt(r);
      assert after.body[i] == after.RecordAt(r)[i % RECORD_SIZE];
      assert after'.body[i] == after'.RecordAt(r)[i % RECORD_SIZE];
    } else {
      assert after.body[i] == after.body[k * RECORD_SIZE..][i - k * RECORD_SIZE];
      assert after'.body[i] == after'.body[k * RECORD_SIZE..][i - k * RECORD_SIZE];
    }
  }

  // ----- The buffer in memory -----

  /** Joint bits are set with a shift of a 32-bit int, which C defines for shifts below 31. */
  predicate Shiftable(j: nat) {
    j < 31
  }

  function WithBit(bitmap: Bitmap, j: nat, value: bool): Bitmap
    requires Shiftable(j)
  {
    bitmap[j := value]
  }

  class CommandData {
    var code: string
    var pid: nat
    var isCompressed: nat
    var total: nat
    var bitmap: Bitmap
    const body: array<Byte>

    function Contents(): View
      reads this, body
    {
      View(code, pid, isCompressed, total, bitmap, body[..])
    }

    predicate Valid()
      reads this, body
    {
      Contents().Valid()
    }

    /** hubo_cmd_init_data. */
    constructor (joints: nat, pid: nat)
      requires joints <= JOINT_MAX
      ensures Valid() && fresh(body) && body.Length == joints * RECORD_SIZE
      ensures Contents()
        == View(HEADER_CODE, pid, 0, joints, Repeated(false, JOINT_MAX), Repeated(0, joints * RECORD_SIZE))
    {
      code, this.pid, isCompressed, total, bitmap := HEADER_CODE, pid, 0, joints, Repeated(false, JOINT_MAX);
      body := new Byte[joints * RECORD_SIZE](_ => 0);
    }

    method CheckIfJointIsSet(j: nat) returns (isSet: bool)
      requires Valid()
      ensures isSet <==> Contents().IsSet(j)
    {
      return j < total && bitmap[j];
    }

    /** Counts the set joints below k. */
    method CountSet(k: nat) returns (count: nat)
      requires k <= JOINT_MAX
      ensures count == Rank(bitmap, k)
    {
      count := 0;
      var i := 0;
      while i < k
        invariant 0 <= i <= k
        invariant count == Rank(bitmap, i)
      {
        if bitmap[i] {
          count := count + 1;
        }
        i := i + 1;
      }
    }

    method GetSize() returns (size: nat)
      requires Valid()
      ensures size == Contents().Size()
    {
      if code != HEADER_CODE {
        return 0;
      }
      if isCompressed == 0 {
        return MessageSize(total);
      }
      var used := CountSet(total);
      return MessageSize(used);
    }

    method GetMinDataSize() returns (size: nat)
      requires Valid()
      ensures size == Contents().MinSize()
    {
      if code != HEADER_CODE {
        return 0;
      }
      var count := total;
      if isCompressed == 1 {
        count := CountSet(total);
      }
      return MessageSize(count);
    }

    method GetJointCmd(j: nat) returns (result: Result<Record>)
      requires Valid()
      ensures result == Contents().Get(j)
    {
      if total <= j {
        return Failure(OutOfBounds);
      }
      if isCompressed == 1 {
        if !bitmap[j] {
          return Failure(UnavailableIndex);
        }
        var location := CountSet(j);
        RankGrows(bitmap, j, total);
        return Success(body[location * RECORD_SIZE..(location + 1) * RECORD_SIZE]);
      } else if isCompressed == 0 {
        return Success(body[j * RECORD_SIZE..(j + 1) * RECORD_SIZE]);
      } else {
        return Failure(MalformedHeader);
      }
    }

    /** Overwrites the bytes of one record. */
    method WriteRecord(i: nat, record: Record)
      requires (i + 1) * RECORD_SIZE <= body.Length
      modifies body
      ensures body[..] == old(body[..i * RECORD_SIZE]) + record + old(body[(i + 1) * RECORD_SIZE..])
    {
      forall k | 0 <= k < RECORD_SIZE {
        body[i * RECORD_SIZE + k] := record[k];
      }
    }

    method RegisterJoint(j: nat) returns (error: Error)
      requires Valid() && (j < total ==> Shiftable(j))
      modifies this`bitmap
      ensures error == WriteError(old(Contents()), j)
      ensures Contents()
        == if error == DataOkay then old(Contents()).(bitmap := old(bitmap)[j := true]) else old(Contents())
    {
      if total <= j {
        return OutOfBounds;
      }
      if isCompressed == 1 {
        return ReadOnly;
      }
      bitmap := WithBit(bitmap, j, true);
      return DataOkay;
    }

    method SetJointCmd(record: Record, j: nat) returns (error: Error)
      requires Valid() && (j < total ==> Shiftable(j))
      modifies this`bitmap, body
      ensures error == WriteError(old(Contents()), j)
      ensures Contents() == if error == DataOkay then Written(old(Contents()), j, record) else old(Contents())
    {
      if total <= j {
        return OutOfBounds;
      }
      if isCompressed == 1 {
        return ReadOnly;
      }
      bitmap := WithBit(bitmap, j, true);
      WriteRecord(j, record);
      return DataOkay;
    }

    /** Every released joint below the joint count leaves the bitmap; the records are read through a pointer, which a
        compressed buffer does not hand out. */
    method UnregisterReleasedJoints() returns (error: Error)
      requires Valid() && isCompressed != 1
      requires forall i :: 0 <= i < total && ModeOf(Contents().RecordAt(i)) == RELEASE ==> Shiftable(i)
      modifies this`bitmap, body
      ensures error == if code == HEADER_CODE then DataOkay else MalformedHeader
      ensures error != DataOkay ==> Contents() == old(Contents())
      ensures error == DataOkay ==> UnregisteredBelow(old(Contents()), Contents(), total)
    {
      if code != HEADER_CODE {
        return MalformedHeader;
      }
      ghost var before := Contents();
      var i := 0;
      while i < total
        invariant 0 <= i <= total
        invariant UnregisteredBelow(before, Contents(), i)
      {
        NextRecordUntouched(before, Contents(), i);
        ghost var step := Contents();
        var record: Record := body[i * RECORD_SIZE..(i + 1) * RECORD_SIZE];
        if ModeOf(record) == RELEASE {
          WriteRecord(i, WithMode(record, IGNORE));
          bitmap := WithBit(bitmap, i, false);
        }
        RetireNext(before, step, Contents(), i);
        i := i + 1;
      }
      return DataOkay;
    }
  }

  /** Why setting or registering a joint is refused. */
  function WriteError(view: View, j: nat): Error {
    if view.total <= j then OutOfBounds else if view.isCompressed == 1 then ReadOnly else DataOkay
  }

  /** A buffer after one joint's record has been written. */
  function Written(view: View, j: nat, record: Record): (after: View)
    requires view.Valid() && WriteError(view, j) == DataOkay
    ensures after.Valid() && |after.body| == |view.body|
  {
    view.(bitmap := view.bitmap[j := true],
          body := view.body[..j * RECORD_SIZE] + record + view.body[(j + 1) * RECORD_SIZE..])
  }

  lemma WrittenRecord(view: View, j: nat, record: Record, i: nat)
    requires view.Valid() && WriteError(view, j) == DataOkay && i < view.total
    ensures Written(view, j, record).RecordAt(i) == if i == j then record else view.RecordAt(i)
    ensures Written(view, j, record).IsSet(i) <==> i == j || view.IsSet(i)
  {
    Spliced(view.body, j * RECORD_SIZE, record, i * RECORD_SIZE, (i + 1) * RECORD_SIZE);
  }

  /** Replacing a part of the bytes leaves what comes before and after it. */
  lemma Spliced(body: seq<Byte>, at: nat, part: seq<Byte>, from: nat, to: nat)
    requires at + |part| <= |body| && from <= to <= |body|
    ensures var after := body[..at] + part + body[at + |part|..];
      && after[at..at + |part|] == part
      && (to <= at || at + |part| <= from ==> after[from..to] == body[from..to])
  {}

  /** Setting a joint is refused when there is no such joint, or the buffer is compressed; otherwise reading any joint
      gives what was set, or what was there before. */
  lemma ReadsWhatWasSet(view: View, j: nat, record: Record, i: nat)
    requires view.Valid()
    ensures WriteError(view, j) != DataOkay <==> view.total <= j || view.isCompressed == 1
    ensures view.total <= j ==> WriteError(view, j) == OutOfBounds
    ensures j < view.total && view.isCompressed == 1 ==> WriteError(view, j) == ReadOnly
    ensures i < view.total && view.isCompressed == 0 ==> view.Get(i) == Success(view.RecordAt(i))
    ensures WriteError(view, j) == DataOkay && view.isCompressed == 0 ==>
      Written(view, j, record).Get(i) == if i == j then Success(record) else view.Get(i)
  {
    if WriteError(view, j) == DataOkay && i < view.total {
      WrittenRecord(view, j, record, i);
    }
  }

  lemma NextRecordUntouched(before: View, after: View, k: nat)
    requires UnregisteredBelow(before, after, k) && k < before.total
    ensures after.RecordAt(k) == before.RecordAt(k) && after.bitmap[k] == before.bitmap[k]
  {
    assert before.RecordAt(k) == before.body[k * RECORD_SIZE..][..RECORD_SIZE];
    assert after.RecordAt(k) == after.body[k * RECORD_SIZE..][..RECORD_SIZE];
    assert after.bitmap[k..][0] == after.bitmap[k];
  }

  lemma RetireNext(before: View, step: View, after: View, k: nat)
    requires UnregisteredBelow(before, step, k) && k < before.total
    requires after == if ModeOf(step.RecordAt(k)) != RELEASE then step
      else step.(bitmap := step.bitmap[k := false],
                 body := step.body[..k * RECORD_SIZE] + WithMode(step.RecordAt(k), IGNORE)
                         + step.body[(k + 1) * RECORD_SIZE..])
    ensures UnregisteredBelow(before, after, k + 1)
  {
    NextRecordUntouched(before, step, k);
    forall i | 0 <= i < k + 1
      ensures after.RecordAt(i) == Retired(before.RecordAt(i))
    {
      if i < k {
        assert after.RecordAt(i) == step.RecordAt(i);
      }
    }
    assert step.body[(k + 1) * RECORD_SIZE..] == step.body[k * RECORD_SIZE..][RECORD_SIZE..];
    assert before.body[(k + 1) * RECORD_SIZE..] == before.body[k * RECORD_SIZE..][RECORD_SIZE..];
    assert step.bitmap[k + 1..] == step.bitmap[k..][1..];
    assert before.bitmap[k + 1..] == before.bitmap[k..][1..];
  }

  /** hubo_cmd_data_compressor, between two different buffers. */
  method Compress(compressed: CommandData, uncompressed: CommandData) returns (count: nat)
    requires compressed != uncompressed && compressed.body != uncompressed.body
    requires compressed.Valid() && uncompressed.Valid() && compressed.Contents().HoldsRecords(compressed.total)
    modifies compressed, compressed.body
    ensures (compressed.Contents(), count) == Compressed(old(compressed.Contents()), old(uncompressed.Contents()))
  {
    if uncompressed.code != HEADER_CODE {
      return 0;
    }
    if compressed.code != HEADER_CODE {
      return 0;
    }
    if compressed.total < uncompressed.total {
      return 0;
    }
    if uncompressed.isCompressed == 1 {
      CopyCompressed(compressed, uncompressed);
      count := compressed.GetSize();
      return;
    }
    CopyHeader(compressed, uncompressed);
    compressed.isCompressed := 1;
    count := PackRecords(compressed, uncompressed);
  }

  /** Copies a compressed buffer's header and records. */
  method CopyCompressed(compressed: CommandData, uncompressed: CommandData)
    requires compressed != uncompressed && compressed.body != uncompressed.body
    requires uncompressed.Valid() && uncompressed.isCompressed == 1
    requires uncompressed.total * RECORD_SIZE <= compressed.body.Length
    modifies compressed, compressed.body
    ensures var source := old(uncompressed.Contents());
      var n := Rank(source.bitmap, source.total) * RECORD_SIZE;
      compressed.Contents() == source.(body := source.body[..n] + old(compressed.body[..])[n..])
  {
    CopyHeader(compressed, uncompressed);
    var used := uncompressed.CountSet(uncompressed.total);
    forall k | 0 <= k < used * RECORD_SIZE {
      compressed.body[k] := uncompressed.body[k];
    }
    assert compressed.body[..]
      == uncompressed.body[..used * RECORD_SIZE] + old(compressed.body[..])[used * RECORD_SIZE..];
  }

  /** Copies the records of the set joints, one behind the other. */
  method PackRecords(compressed: CommandData, uncompressed: CommandData) returns (count: nat)
    requires compressed != uncompressed && compressed.body != uncompressed.body
    requires uncompressed.Valid() && uncompressed.isCompressed != 1
    requires uncompressed.total * RECORD_SIZE <= compressed.body.Length
    modifies compressed.body
    ensures count == Rank(uncompressed.bitmap, uncompressed.total)
    ensures compressed.body[..]
         == Packed(uncompressed.Contents(), uncompressed.total) + old(compressed.body[..])[count * RECORD_SIZE..]
  {
    ghost var source, room := uncompressed.Contents(), compressed.body[..];
    count := 0;
    var i := 0;
    while i < uncompressed.total
      invariant 0 <= i <= uncompressed.total
      invariant count == Rank(source.bitmap, i)
      invariant compressed.body[..] == Packed(source, i) + room[count * RECORD_SIZE..]
      modifies compressed.body
    {
      if uncompressed.bitmap[i] {
        var record: Record := uncompressed.body[i * RECORD_SIZE..(i + 1) * RECORD_SIZE];
        assert record == source.RecordAt(i);
        ghost var before := compressed.body[..];
        compressed.WriteRecord(count, record);
        assert before[..count * RECORD_SIZE] == Packed(source, i);
        assert before[(count + 1) * RECORD_SIZE..] == room[(count + 1) * RECORD_SIZE..];
        count := count + 1;
      }
      i := i + 1;
    }
  }

  method CopyHeader(to: CommandData, from: CommandData)
    requires to != from
    modifies to
    ensures to.Contents() == from.Contents().(body := to.body[..])
  {
    to.code, to.pid, to.isCompressed := from.code, from.pid, from.isCompressed;
    to.total, to.bitmap := from.total, from.bitmap;
  }
}
