// The descriptor table of the fastboot host's Win32 transport
// (fastboot/tcp_windows.c): a fixed array of 128 slots handed out as
// integer descriptors numbered from 100. Slots are used in order until
// all have been handed out once; after that a closed slot is reused,
// lowest first.

module TcpWindows {
  import opened CStrings

  const WIN32_FH_BASE: int := 100
  const WIN32_MAX_FHS: nat := 128

  /** The class a slot is opened with: its handle operations. */
  datatype FHClass = FileClass | SocketClass

  /** A slot: its class (none while free) and end-of-file flag. */
  datatype FHRec = FHRec(clazz: Option<FHClass>, eof: int)

  /** The lowest index from i on whose slot is free. */
  function FirstFree(s: seq<FHRec>, i: nat): (r: Option<nat>)
    requires i <= |s|
    ensures r.Some? ==> i <= r.value < |s| && s[r.value].clazz.None?
    decreases |s| - i
  {
    if i == |s| then None
    else if s[i].clazz.None? then Some(i)
    else FirstFree(s, i + 1)
  }

  /** FirstFree finds the lowest free slot from i on, and none only when every slot from i on is used. */
  lemma {:induction false} FirstFreeLowest(s: seq<FHRec>, i: nat)
    requires i <= |s|
    ensures FirstFree(s, i).Some? ==> forall j :: i <= j < FirstFree(s, i).value ==> s[j].clazz.Some?
    ensures FirstFree(s, i).None? <==> forall j :: i <= j < |s| ==> s[j].clazz.Some?
    decreases |s| - i
  {
    if i < |s| {
      FirstFreeLowest(s, i + 1);
    }
  }

  class HandleTable {
    var fhs: array<FHRec>
    var count: int

    /** The slots past the count have never been handed out, so they are free. */
    predicate Valid()
      reads this, fhs
    {
      fhs.Length == WIN32_MAX_FHS && 0 <= count <= WIN32_MAX_FHS &&
      forall i :: count <= i < WIN32_MAX_FHS ==> fhs[i].clazz.None?
    }

    /** The zero-initialised static table. */
    constructor()
      ensures Valid() && count == 0 && fresh(fhs)
      ensures forall i :: 0 <= i < fhs.Length ==> fhs[i] == FHRec(None, 0)
    {
      fhs := new FHRec[WIN32_MAX_FHS](_ => FHRec(None, 0));
      count := 0;
    }

    /** _fh_from_int: the slot of a descriptor, none when it is out of range or its slot is free. */
    function FromInt(fd: int): (f: Option<nat>)
      reads this, fhs
      requires Valid()
      ensures f.Some? <==> 0 <= fd - WIN32_FH_BASE < count && fhs[fd - WIN32_FH_BASE].clazz.Some?
      ensures f.Some? ==> f.value < count && f.value + WIN32_FH_BASE == fd
    {
      var i := fd - WIN32_FH_BASE;
      if i < 0 || i >= count then None
      else if fhs[i].clazz.None? then None
      else Some(i)
    }

    /** _fh_to_int: a slot in use has descriptor index + 100; anything else gives -1. */
    function ToInt(f: Option<int>): (fd: int)
      reads this, fhs
      requires Valid()
      ensures fd == -1 || (f.Some? && fd == f.value + WIN32_FH_BASE)
      ensures fd != -1 <==> f.Some? && 0 <= f.value < WIN32_MAX_FHS && fhs[f.value].clazz.Some?
    {
      if f.Some? && 0 <= f.value < WIN32_MAX_FHS && fhs[f.value].clazz.Some? then f.value + WIN32_FH_BASE else -1
    }

    /** A slot in use is found again from its descriptor. */
    lemma FromToInt(i: nat)
      requires Valid() && i < WIN32_MAX_FHS && fhs[i].clazz.Some?
      ensures FromInt(ToInt(Some(i))) == Some(i)
    {
    }

    /** A descriptor that names a slot is that slot's descriptor. */
    lemma ToFromInt(fd: int)
      requires Valid() && FromInt(fd).Some?
      ensures ToInt(Some(FromInt(fd).value)) == fd
    {
    }

    /**
     * _fh_alloc: while unused slots remain, the next one in order;
     * afterwards the lowest free slot, or none. The slot is opened with
     * clazz and its eof flag cleared; no other slot changes.
     */
    method Alloc(clazz: FHClass) returns (f: Option<nat>)
      requires Valid()
      modifies this, fhs
      ensures Valid() && fhs == old(fhs)
      ensures old(count) < WIN32_MAX_FHS ==> f == Some(old(count)) && count == old(count) + 1
      ensures old(count) == WIN32_MAX_FHS ==> f == FirstFree(old(fhs[..]), 0) && count == old(count)
      ensures f.None? ==> fhs[..] == old(fhs[..])
      ensures f.Some? ==> (f.value < WIN32_MAX_FHS && old(fhs[f.value].clazz).None? &&
        fhs[..] == old(fhs[..])[f.value := FHRec(Some(clazz), 0)])
    {
      if count < WIN32_MAX_FHS {
        f := Some(count);
        count := count + 1;
      } else {
        f := None;
        var nn := 0;
        while nn < WIN32_MAX_FHS
          invariant 0 <= nn <= WIN32_MAX_FHS
          invariant FirstFree(fhs[..], 0) == FirstFree(fhs[..], nn)
        {
          if fhs[nn].clazz.None? {
            f := Some(nn);
            break;
          }
          nn := nn + 1;
        }
      }
      if f.Some? {
        fhs[f.value] := FHRec(Some(clazz), 0);
      }
    }

    /** _fh_close: a slot in use becomes free with its eof flag cleared; nothing else changes. */
    method Close(f: nat) returns (r: int)
      requires Valid() && f < WIN32_MAX_FHS
      modifies fhs
      ensures Valid() && r == 0
      ensures fhs[..] == if old(fhs[f].clazz).Some? then old(fhs[..])[f := FHRec(None, 0)] else old(fhs[..])
    {
      if fhs[f].clazz.Some? {
        fhs[f] := FHRec(None, 0);
      }
      r := 0;
    }

    /** After a close the slot's descriptor no longer resolves. */
    lemma ClosedNotFound(f: nat)
      requires Valid() && f < WIN32_MAX_FHS && fhs[f].clazz.None?
      ensures FromInt(f + WIN32_FH_BASE).None? && ToInt(Some(f)) == -1
    {
    }
  }
}
