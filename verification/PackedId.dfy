/** The 64-bit task id of the TCB as a machine word.

    task.h keeps four fields in id_: key (bits 32-63), flags (24-31), priority (16-23) and
    slot number (0-15). The setters here are the source's own mask-and-shift expressions;
    the lemmas show that the word is exactly a record of the four fields and that each
    setter changes its own field and no other. The scheduler model then works on the record. */
module PackedId {
  import KernelState

  type Word = bv64

  const FLAG_SYSTEM: bv8 := 0x80
  const FLAG_THREAD: bv8 := 0x40
  const FLAG_DELETE: bv8 := 0x01

  datatype Fields = Fields(key: bv32, flags: bv8, priority: bv8, no: bv16)

  function GetNo(id: Word): bv16 { (id & 0xFFFF) as bv16 }
  function GetKey(id: Word): bv32 { (id >> 32) as bv32 }
  function GetPriority(id: Word): bv8 { ((id >> 16) & 0xFF) as bv8 }
  function GetFlags(id: Word): bv8 { ((id >> 24) & 0xFF) as bv8 }

  function SetNo(no: bv16): Word { no as bv64 }

  function SetKey(id: Word, key: bv32): Word {
    (id & 0x0000_0000_FFFF_FFFF) | ((key as bv64) << 32)
  }

  function SetPriority(id: Word, priority: bv8): Word {
    if priority <= 5 then ((priority as bv64) << 16) | (id & 0xFFFF_FFFF_FF00_FFFF) else id
  }

  function SetFlags(id: Word, flags: bv8): Word {
    (id & 0xFFFF_FFFF_00FF_FFFF) | ((flags as bv64) << 24)
  }

  function SetDeleteFlag(id: Word): Word { SetFlags(id, GetFlags(id) | FLAG_DELETE) }

  function Unpack(id: Word): Fields {
    Fields(GetKey(id), GetFlags(id), GetPriority(id), GetNo(id))
  }

  function Pack(f: Fields): Word {
    ((f.key as bv64) << 32) | ((f.flags as bv64) << 24) | ((f.priority as bv64) << 16) | (f.no as bv64)
  }

  /** The word and the record of its fields determine each other. */
  lemma PackUnpack(id: Word, f: Fields)
    ensures Pack(Unpack(id)) == id
    ensures Unpack(Pack(f)) == f
  {
    assert (Pack(f) >> 32) as bv32 == f.key;
    assert ((Pack(f) >> 24) & 0xFF) as bv8 == f.flags;
  }

  /** Two ids are equal exactly when all four fields are. */
  lemma EqualByFields(a: Word, b: Word)
    ensures a == b <==> Unpack(a) == Unpack(b)
  {
    PackUnpack(a, Unpack(a));
    PackUnpack(b, Unpack(b));
  }

  // Each setter writes its own field and leaves the other three alone; setNo clears them.

  lemma SetKeyOnly(id: Word, key: bv32)
    ensures Unpack(SetKey(id, key)) == Unpack(id).(key := key)
  {}

  lemma SetFlagsOnly(id: Word, flags: bv8)
    ensures Unpack(SetFlags(id, flags)) == Unpack(id).(flags := flags)
  {}

  lemma SetPriorityOnly(id: Word, priority: bv8)
    ensures Unpack(SetPriority(id, priority))
         == if priority <= 5 then Unpack(id).(priority := priority) else Unpack(id)
  {}

  lemma SetNoClears(no: bv16)
    ensures Unpack(SetNo(no)) == Fields(0, 0, 0, no)
  {}

  lemma DeleteBit(f: bv8)
    ensures (f | FLAG_DELETE) & FLAG_DELETE != 0
    ensures (f | FLAG_DELETE) & 0xFE == f & 0xFE
    ensures (f | FLAG_DELETE) | FLAG_DELETE == f | FLAG_DELETE
    ensures f | FLAG_DELETE == f <==> f & FLAG_DELETE != 0
  {}

  /** Setting the delete flag writes that bit of the flags and nothing else, and is idempotent;
      the id of a task changes exactly when the task was not flagged before. */
  lemma DeleteFlagOnly(id: Word)
    ensures Unpack(SetDeleteFlag(id)) == Unpack(id).(flags := GetFlags(id) | FLAG_DELETE)
    ensures SetDeleteFlag(SetDeleteFlag(id)) == SetDeleteFlag(id)
    ensures SetDeleteFlag(id) == id <==> GetFlags(id) & FLAG_DELETE != 0
  {
    var f := GetFlags(id) | FLAG_DELETE;
    SetFlagsOnly(id, f);
    SetFlagsOnly(SetFlags(id, f), f | FLAG_DELETE);
    DeleteBit(GetFlags(id));
    EqualByFields(SetDeleteFlag(id), id);
    EqualByFields(SetDeleteFlag(SetDeleteFlag(id)), SetDeleteFlag(id));
  }

  // ------------------------------------------------------------------ the record of the model

  function ViewFlags(f: bv8): KernelState.Flags {
    KernelState.Flags(f & FLAG_SYSTEM != 0, f & FLAG_THREAD != 0, f & FLAG_DELETE != 0, (f & 0x3E) as nat)
  }

  /** The id of module KernelState that a word stands for. */
  function View(id: Word): KernelState.Id {
    KernelState.Id(GetKey(id) as nat, ViewFlags(GetFlags(id)), GetPriority(id) as nat, GetNo(id) as nat)
  }

  lemma FlagBits(f: bv8, g: bv8)
    requires f & FLAG_SYSTEM == g & FLAG_SYSTEM && f & FLAG_THREAD == g & FLAG_THREAD
    requires f & FLAG_DELETE == g & FLAG_DELETE && f & 0x3E == g & 0x3E
    ensures f == g
  {}

  lemma BitIsSetOrClear(f: bv8)
    ensures f & FLAG_SYSTEM == 0 || f & FLAG_SYSTEM == FLAG_SYSTEM
    ensures f & FLAG_THREAD == 0 || f & FLAG_THREAD == FLAG_THREAD
    ensures f & FLAG_DELETE == 0 || f & FLAG_DELETE == FLAG_DELETE
  {}

  lemma NatOf32(a: bv32, b: bv32)
    requires a as nat == b as nat
    ensures a == b
  {
    assert (a as nat) as bv32 == a && (b as nat) as bv32 == b;
  }

  lemma NatOf16(a: bv16, b: bv16)
    requires a as nat == b as nat
    ensures a == b
  {
    assert (a as nat) as bv16 == a && (b as nat) as bv16 == b;
  }

  lemma NatOf8(a: bv8, b: bv8)
    requires a as nat == b as nat
    ensures a == b
  {
    assert (a as nat) as bv8 == a && (b as nat) as bv8 == b;
  }

  /** Comparing two id words is comparing the records: searchTCB, rmThread and the FPU owner
      test see the same equality. */
  lemma ViewIsInjective(a: Word, b: Word)
    ensures View(a) == View(b) <==> a == b
  {
    if View(a) == View(b) {
      NatOf32(GetKey(a), GetKey(b));
      NatOf8(GetPriority(a), GetPriority(b));
      NatOf16(GetNo(a), GetNo(b));
      NatOf8(GetFlags(a) & 0x3E, GetFlags(b) & 0x3E);
      BitIsSetOrClear(GetFlags(a));
      BitIsSetOrClear(GetFlags(b));
      FlagBits(GetFlags(a), GetFlags(b));
      EqualByFields(a, b);
    }
  }

  lemma DeleteBitOnly(f: bv8)
    ensures (f | FLAG_DELETE) & FLAG_SYSTEM == f & FLAG_SYSTEM && (f | FLAG_DELETE) & FLAG_THREAD == f & FLAG_THREAD
    ensures (f | FLAG_DELETE) & 0x3E == f & 0x3E
  {}

  // The setters of the word are the record updates of the model.

  lemma SetKeyIsUpdate(id: Word, key: bv32)
    ensures View(SetKey(id, key)) == View(id).(key := key as nat)
  {
    hide SetKey, GetKey, GetPriority, GetFlags, GetNo;
    SetKeyOnly(id, key);
  }

  lemma SetFlagsIsUpdate(id: Word, flags: bv8)
    ensures View(SetFlags(id, flags)) == View(id).(flags := ViewFlags(flags))
  {
    hide SetFlags, GetKey, GetPriority, GetFlags, GetNo, ViewFlags;
    SetFlagsOnly(id, flags);
  }

  /** A priority above 5 is ignored. */
  lemma SetPriorityIsUpdate(id: Word, priority: bv8)
    ensures View(SetPriority(id, priority)) ==
      if priority <= 5 then View(id).(priority := priority as nat) else View(id)
  {
    hide SetPriority, GetKey, GetPriority, GetFlags, GetNo;
    SetPriorityOnly(id, priority);
    if priority > 5 { EqualByFields(SetPriority(id, priority), id); }
  }

  /** What TaskPool::init leaves: a numbered free slot without flags. */
  lemma SetNoIsFresh(no: bv16)
    ensures View(SetNo(no)) == KernelState.Id(0, KernelState.Flags(false, false, false, 0), 0, no as nat)
  {
    hide SetNo, GetKey, GetPriority, GetFlags, GetNo;
    SetNoClears(no);
  }

  lemma SetDeleteFlagIsUpdate(id: Word)
    ensures View(SetDeleteFlag(id)) == KernelState.Deleted(View(id))
  {
    hide SetFlags, SetDeleteFlag, GetKey, GetPriority, GetFlags, GetNo;
    DeleteFlagOnly(id);
    DeleteBit(GetFlags(id));
    DeleteBitOnly(GetFlags(id));
  }

  /** Where the fields are in the word: key 7, all three flags, priority 3 and slot 5; the shell's
      id after boot; and a thread and a flagged process beside it. */
  lemma WordLayout()
    ensures View(0x0000_0007_C103_0005) == KernelState.Id(7, KernelState.Flags(true, true, true, 0), 3, 5)
    ensures View(0x0000_0001_8001_0000) == KernelState.Id(1, KernelState.Flags(true, false, false, 0), 1, 0)
    ensures View(0xFFFF_FFFF_4005_03FF)
         == KernelState.Id(0xFFFF_FFFF, KernelState.Flags(false, true, false, 0), 5, 1023)
    ensures View(0x0000_0100_0102_0100) == KernelState.Id(256, KernelState.Flags(false, false, true, 0), 2, 256)
  {}
}
