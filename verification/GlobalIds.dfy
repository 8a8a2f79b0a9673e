/**
  Job ids: 64-bit words of four fields, a sequential count (20 bits), a start time (30), a process id
  (4) and a box id (10).
 */
module GlobalIds {
  import opened Words

  const COUNT_MASK: Word := 0xF_FFFF
  const TIME_MASK: Word := 0x3FFF_FFFF
  const PROCESS_MASK: Word := 0xF
  const BOX_MASK: Word := 0x3FF

  datatype Fields = Fields(count: Word, time: Word, process: Word, box: Word)

  function FieldsOf(b: Word): Fields {
    Fields(GetBits(b, 0, COUNT_MASK), GetBits(b, 20, TIME_MASK), GetBits(b, 50, PROCESS_MASK), GetBits(b, 54, BOX_MASK))
  }

  /** The four fields cover the word: words with the same fields are the same. */
  lemma FieldsCover(a: Word, b: Word)
    requires FieldsOf(a) == FieldsOf(b)
    ensures a == b
  {}

  /** Where the fields stand in the word. */
  lemma FieldsAre(b: Word)
    ensures var f := FieldsOf(b);
      && b == f.count | (f.time << 20) | (f.process << 50) | (f.box << 54)
      && f.count <= 0xF_FFFF && f.time <= 0x3FFF_FFFF && f.process <= 0xF && f.box <= 0x3FF
  {}

  lemma SetCount(b: Word, v: Word)
    ensures var c := SetBits(b, v, 0, COUNT_MASK);
      && GetBits(c, 0, COUNT_MASK) == v & 0xF_FFFF && GetBits(c, 20, TIME_MASK) == GetBits(b, 20, TIME_MASK)
      && GetBits(c, 50, PROCESS_MASK) == GetBits(b, 50, PROCESS_MASK)
      && GetBits(c, 54, BOX_MASK) == GetBits(b, 54, BOX_MASK)
  {}

  lemma SetTime(b: Word, v: Word)
    ensures var c := SetBits(b, v, 20, TIME_MASK);
      && GetBits(c, 0, COUNT_MASK) == GetBits(b, 0, COUNT_MASK) && GetBits(c, 20, TIME_MASK) == v & 0x3FFF_FFFF
      && GetBits(c, 50, PROCESS_MASK) == GetBits(b, 50, PROCESS_MASK)
      && GetBits(c, 54, BOX_MASK) == GetBits(b, 54, BOX_MASK)
  {}

  lemma SetProcess(b: Word, v: Word)
    ensures var c := SetBits(b, v, 50, PROCESS_MASK);
      && GetBits(c, 0, COUNT_MASK) == GetBits(b, 0, COUNT_MASK)
      && GetBits(c, 20, TIME_MASK) == GetBits(b, 20, TIME_MASK)
      && GetBits(c, 50, PROCESS_MASK) == v & 0xF && GetBits(c, 54, BOX_MASK) == GetBits(b, 54, BOX_MASK)
  {}

  lemma SetBox(b: Word, v: Word)
    ensures var c := SetBits(b, v, 54, BOX_MASK);
      && GetBits(c, 0, COUNT_MASK) == GetBits(b, 0, COUNT_MASK)
      && GetBits(c, 20, TIME_MASK) == GetBits(b, 20, TIME_MASK)
      && GetBits(c, 50, PROCESS_MASK) == GetBits(b, 50, PROCESS_MASK) && GetBits(c, 54, BOX_MASK) == v & 0x3FF
  {}

  /** Setting one field keeps the low bits of the value, and the other three fields. */
  lemma SetOneField(b: Word, v: Word)
    ensures FieldsOf(SetBits(b, v, 0, COUNT_MASK)) == FieldsOf(b).(count := v & 0xF_FFFF)
    ensures FieldsOf(SetBits(b, v, 20, TIME_MASK)) == FieldsOf(b).(time := v & 0x3FFF_FFFF)
    ensures FieldsOf(SetBits(b, v, 50, PROCESS_MASK)) == FieldsOf(b).(process := v & 0xF)
    ensures FieldsOf(SetBits(b, v, 54, BOX_MASK)) == FieldsOf(b).(box := v & 0x3FF)
  {
    SetCount(b, v);
    SetTime(b, v);
    SetProcess(b, v);
    SetBox(b, v);
  }

  class GlobalID {
    var bits: Word

    constructor ()
      ensures bits == 0
    {
      bits := 0;
    }

    method SetSequentialCount(v: Word)
      modifies this
      ensures bits == SetBits(old(bits), v, 0, COUNT_MASK)
    {
      bits := SetBits(bits, v, 0, COUNT_MASK);
    }

    method SetStartTime(seconds: Word)
      modifies this
      ensures bits == SetBits(old(bits), seconds, 20, TIME_MASK)
    {
      bits := SetBits(bits, seconds, 20, TIME_MASK);
    }

    method SetProcessId(v: Word)
      modifies this
      ensures bits == SetBits(old(bits), v, 50, PROCESS_MASK)
    {
      bits := SetBits(bits, v, 50, PROCESS_MASK);
    }

    method SetBoxId(v: Word)
      modifies this
      ensures bits == SetBits(old(bits), v, 54, BOX_MASK)
    {
      bits := SetBits(bits, v, 54, BOX_MASK);
    }
  }

  // ----- the ids of a connection's jobs -----

  /** The id made when the counter stands at `counter`. */
  function JobId(startTime: Word, counter: bv32): Word {
    var boxed := SetBits(SetBits(0, 0, 54, BOX_MASK), 0, 50, PROCESS_MASK);
    SetBits(SetBits(boxed, counter as Word, 0, COUNT_MASK), startTime, 20, TIME_MASK)
  }

  /** The counter is 32 bits wide and wraps around. */
  class Connection {
    const startTime: Word
    var jobIdSequence: bv32

    constructor (startTime: Word)
      ensures this.startTime == startTime && jobIdSequence == 0
    {
      this.startTime := startTime;
      jobIdSequence := 0;
    }

    method GetNextJobId() returns (jobId: Word)
      modifies this
      ensures jobIdSequence == old(jobIdSequence) + 1
      ensures jobId == JobId(startTime, jobIdSequence)
    {
      jobIdSequence := jobIdSequence + 1;
      var id := new GlobalID();
      id.SetBoxId(0);
      id.SetProcessId(0);
      id.SetSequentialCount(jobIdSequence as Word);
      id.SetStartTime(startTime);
      return id.bits;
    }
  }

  lemma JobIdFields(startTime: Word, counter: bv32)
    ensures FieldsOf(JobId(startTime, counter)) == Fields(counter as Word & 0xF_FFFF, startTime & 0x3FFF_FFFF, 0, 0)
  {}

  lemma SameCountSameId(startTime: Word, a: bv32, b: bv32)
    requires a & 0xF_FFFF == b & 0xF_FFFF
    ensures JobId(startTime, a) == JobId(startTime, b)
  {}

  lemma SameIdSameCount(startTime: Word, a: bv32, b: bv32)
    requires JobId(startTime, a) == JobId(startTime, b)
    ensures a & 0xF_FFFF == b & 0xF_FFFF
  {}

  lemma SameCountIff(a: bv32, b: bv32)
    ensures a & 0xF_FFFF == b & 0xF_FFFF <==> (b - a) & 0xF_FFFF == 0
  {}

  /** Two ids of a connection are the same exactly when 2 to the 20 divides the distance of their counters. */
  lemma SameIdIff(startTime: Word, a: bv32, b: bv32)
    ensures JobId(startTime, a) == JobId(startTime, b) <==> (b - a) & 0xF_FFFF == 0
  {
    SameCountIff(a, b);
    if JobId(startTime, a) == JobId(startTime, b) {
      SameIdSameCount(startTime, a, b);
    }
    if a & 0xF_FFFF == b & 0xF_FFFF {
      SameCountSameId(startTime, a, b);
    }
  }

  /**
    The ids made at two counters differ if fewer than 2 to the 20 calls, each of which moves the counter
    by one, lie between them; and no id is the word of all ones.
   */
  lemma JobIdsAreDistinct(startTime: Word, a: bv32, b: bv32)
    requires 0 < b - a < 0x10_0000
    ensures JobId(startTime, a) != JobId(startTime, b)
    ensures JobId(startTime, a) != 0xFFFF_FFFF_FFFF_FFFF
  {}
}
