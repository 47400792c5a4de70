// writeFileAtomic (internal/cache/atomic.go) with any number of concurrent
// writers, readers and removals of one final name.  A file is an inode; link(2)
// gives the inode of a temporary name a second name.

module Publish {
  import opened Strings

  type Inode = nat
  type WriterId = nat
  type ReaderId = nat

  /** Where a writer is: each value is a point between two system calls. */
  datatype Pc =
    | Named                       // temporary name chosen
    | Writing(ino: Inode)         // temporary file open, part of the data written
    | Full(ino: Inode)            // os.WriteFile returned
    | Broken(ino: Inode)          // os.WriteFile failed
    | Linked(linkErr: LinkResult) // os.Link returned
    | Returned(ok: bool, clean: bool) // clean: the temporary file was removed
    | Dead                        // the process died

  datatype LinkResult = Won | Exists | OtherError

  datatype Writer = Writer(data: string, tmp: string, pc: Pc)

  /** A reader holds an inode once os.ReadFile has opened the final name. */
  datatype Reader = Reader(ino: Inode, got: string)

  /** An inode; who created it and whether that writer has finished are for the proof. */
  datatype File = File(bytes: string, author: WriterId, done: bool)

  datatype System = System(
    final: Option<Inode>,
    temps: map<string, Inode>,
    files: map<Inode, File>,
    writers: map<WriterId, Writer>,
    readers: map<ReaderId, Reader>)

  datatype Action =
    | Begin(w: WriterId, data: string, tmp: string)
    | Create(w: WriterId)
    | OpenError(w: WriterId) // the temporary file cannot be opened; its name is removed all the same
    | Append(w: WriterId, n: nat)
    | WriteDone(w: WriterId)
    | WriteError(w: WriterId)
    | Link(w: WriterId)
    | LinkError(w: WriterId)
    | Unlink(w: WriterId)
    | UnlinkError(w: WriterId)
    | Crash(w: WriterId)
    | RemoveFinal
    | OpenRead(r: ReaderId)
    | ReadMore(r: ReaderId, n: nat)

  const INITIAL := System(None, map[], map[], map[], map[])

  predicate InFlight(pc: Pc)
  {
    !pc.Returned? && !pc.Dead?
  }

  /** The random suffix is new: no file and no writer in flight uses it. */
  ghost predicate NewName(s: System, tmp: string)
  {
    tmp !in s.temps && forall w :: w in s.writers && InFlight(s.writers[w].pc) ==> s.writers[w].tmp != tmp
  }

  /** What writeFileAtomic returns once the temporary file is gone, or could not be removed. */
  predicate ReturnsNil(r: LinkResult, unlinked: bool)
  {
    match r
    case Won => unlinked
    case Exists => true
    case OtherError => false
  }

  ghost predicate Enabled(s: System, a: Action)
  {
    match a
    case Begin(w, _, _) => w !in s.writers
    case Create(w) => w in s.writers && s.writers[w].pc.Named? && (s.writers[w].tmp in s.temps ==> s.temps[s.writers[w].tmp] in s.files)
    case OpenError(w) => w in s.writers && s.writers[w].pc.Named?
    case Append(w, n) =>
      && w in s.writers && s.writers[w].pc.Writing? && s.writers[w].pc.ino in s.files
      && |s.files[s.writers[w].pc.ino].bytes| + n <= |s.writers[w].data|
    case WriteDone(w) =>
      && w in s.writers && s.writers[w].pc.Writing? && s.writers[w].pc.ino in s.files
      && |s.files[s.writers[w].pc.ino].bytes| == |s.writers[w].data|
    case WriteError(w) => w in s.writers && s.writers[w].pc.Writing?
    case Link(w) => w in s.writers && s.writers[w].pc.Full?
    case LinkError(w) => w in s.writers && s.writers[w].pc.Full?
    case Unlink(w) => w in s.writers && (s.writers[w].pc.Linked? || s.writers[w].pc.Broken?)
    case UnlinkError(w) => w in s.writers && (s.writers[w].pc.Linked? || s.writers[w].pc.Broken?)
    case Crash(w) => w in s.writers && InFlight(s.writers[w].pc)
    case RemoveFinal => true
    case OpenRead(r) => r !in s.readers && s.final.Some?
    case ReadMore(r, n) =>
      && r in s.readers && s.readers[r].ino in s.files
      && |s.readers[r].got| + n <= |s.files[s.readers[r].ino].bytes|
  }

  ghost function NewInode(s: System): (i: Inode)
    ensures i !in s.files
  {
    var m := Above(s.files.Keys);
    assert m !in s.files.Keys;
    m
  }

  ghost function Above(used: set<nat>): (m: nat)
    ensures forall i :: i in used ==> i < m
  {
    if used == {} then 0
    else
      var x :| x in used;
      var m := Above(used - {x});
      assert forall i :: i in used ==> i == x || i in used - {x};
      if x < m then m else x + 1
  }

  /** One system call of one process. */
  ghost function Step(s: System, a: Action): System
    requires Enabled(s, a)
  {
    match a
    case Begin(w, data, tmp) => Begun(s, w, data, tmp)
    case Create(w) =>
      if s.writers[w].tmp in s.temps then Truncated(s, w) else Created(s, w)
    case OpenError(w) => Moved(s, w, Returned(false, true)).(temps := s.temps - {s.writers[w].tmp})
    case Append(w, n) => Appended(s, w, n)
    case WriteDone(w) => Finished(s, w)
    case WriteError(w) => Moved(s, w, Broken(s.writers[w].pc.ino))
    case Link(w) =>
      if s.writers[w].tmp !in s.temps then Moved(s, w, Linked(OtherError))
      else if s.final.Some? then Moved(s, w, Linked(Exists))
      else Moved(s, w, Linked(Won)).(final := Some(s.temps[s.writers[w].tmp]))
    case LinkError(w) => Moved(s, w, Linked(OtherError))
    case Unlink(w) =>
      Moved(s, w, Returned(s.writers[w].pc.Linked? && ReturnsNil(s.writers[w].pc.linkErr, true), true))
        .(temps := s.temps - {s.writers[w].tmp})
    case UnlinkError(w) => Moved(s, w, Returned(s.writers[w].pc.Linked? && ReturnsNil(s.writers[w].pc.linkErr, false), false))
    case Crash(w) => Moved(s, w, Dead)
    case RemoveFinal => s.(final := None)
    case OpenRead(r) => s.(readers := s.readers[r := Reader(s.final.value, "")])
    case ReadMore(r, n) =>
      var rd := s.readers[r];
      var k := |rd.got|;
      s.(readers := s.readers[r := rd.(got := rd.got + s.files[rd.ino].bytes[k..k + n])])
  }

  function Moved(s: System, w: WriterId, pc: Pc): System
    requires w in s.writers
  {
    s.(writers := s.writers[w := s.writers[w].(pc := pc)])
  }

  /** Creating the temporary file under a name nobody uses. */
  ghost function Created(s: System, w: WriterId): System
    requires w in s.writers
  {
    var i := NewInode(s);
    Moved(s, w, Writing(i)).(temps := s.temps[s.writers[w].tmp := i], files := s.files[i := File("", w, false)])
  }

  /** O_TRUNC on a file that already has the name. */
  ghost function Truncated(s: System, w: WriterId): System
    requires w in s.writers && s.writers[w].tmp in s.temps && s.temps[s.writers[w].tmp] in s.files
  {
    var i := s.temps[s.writers[w].tmp];
    Moved(s, w, Writing(i)).(files := s.files[i := s.files[i].(bytes := "")])
  }

  function Appended(s: System, w: WriterId, n: nat): System
    requires w in s.writers && s.writers[w].pc.Writing? && s.writers[w].pc.ino in s.files
    requires |s.files[s.writers[w].pc.ino].bytes| + n <= |s.writers[w].data|
  {
    var i := s.writers[w].pc.ino;
    var k := |s.files[i].bytes|;
    s.(files := s.files[i := s.files[i].(bytes := s.files[i].bytes + s.writers[w].data[k..k + n])])
  }

  function Finished(s: System, w: WriterId): System
    requires w in s.writers && s.writers[w].pc.Writing? && s.writers[w].pc.ino in s.files
  {
    var i := s.writers[w].pc.ino;
    Moved(s, w, Full(i)).(files := s.files[i := s.files[i].(done := true)])
  }

  // ---- the invariant ----

  /** Every file is a prefix of its writer's data, and all of it once that writer is done. */
  ghost predicate FilesFilled(s: System)
  {
    forall i :: i in s.files ==>
      && s.files[i].author in s.writers
      && s.files[i].bytes <= s.writers[s.files[i].author].data
      && (s.files[i].done ==> s.files[i].bytes == s.writers[s.files[i].author].data)
  }

  /** A writer writes to the file it created, and to no finished one. */
  ghost predicate WritersOwn(s: System)
  {
    forall w :: w in s.writers ==>
      match s.writers[w].pc
      case Writing(i) => i in s.files && s.files[i].author == w && !s.files[i].done
      case Full(i) => i in s.files && s.files[i].author == w && s.files[i].done
      case _ => true
  }

  /** What is published or being read is finished. */
  ghost predicate PublishedDone(s: System)
  {
    && (s.final.Some? ==> s.final.value in s.files && s.files[s.final.value].done)
    && (forall r :: r in s.readers ==>
          && s.readers[r].ino in s.files && s.files[s.readers[r].ino].done
          && s.readers[r].got <= s.files[s.readers[r].ino].bytes)
  }

  predicate Apart(s: System, v: WriterId, w: WriterId)
    requires v in s.writers && w in s.writers
  {
    InFlight(s.writers[v].pc) && InFlight(s.writers[w].pc) ==> s.writers[v].tmp != s.writers[w].tmp
  }

  /** Writers in flight use different names, taken only from the creation on. */
  ghost predicate NamesApart(s: System)
  {
    && (forall v, w {:trigger Apart(s, v, w)} :: v in s.writers && w in s.writers && v != w ==> Apart(s, v, w))
    && (forall w :: w in s.writers && s.writers[w].pc.Named? ==> s.writers[w].tmp !in s.temps)
  }

  /** While a writer has its file open or full, the temporary name is bound to it. */
  ghost predicate TempsBound(s: System)
  {
    forall w {:trigger BoundFor(s, w)} :: w in s.writers ==> BoundFor(s, w)
  }

  predicate BoundFor(s: System, w: WriterId)
    requires w in s.writers
  {
    s.writers[w].pc.Writing? || s.writers[w].pc.Full? ==>
      s.writers[w].tmp in s.temps && s.temps[s.writers[w].tmp] == s.writers[w].pc.ino
  }

  predicate Leaves(pc: Pc)
  {
    pc.Dead? || (pc.Returned? && !pc.clean) || pc.Writing? || pc.Full? || pc.Broken? || pc.Linked?
  }

  predicate LeftBy(s: System, t: string, w: WriterId)
  {
    w in s.writers && s.writers[w].tmp == t && Leaves(s.writers[w].pc)
  }

  /** Every temporary file is explained by a writer that has not cleaned up. */
  ghost predicate TempsExplained(s: System)
  {
    forall t :: t in s.temps ==> exists w :: LeftBy(s, t, w)
  }

  ghost predicate Inv(s: System)
  {
    FilesFilled(s) && WritersOwn(s) && PublishedDone(s) && NamesApart(s) && TempsBound(s) && TempsExplained(s)
  }

  // ---- every step keeps it ----

  lemma TempsStay(s: System, t: System)
    requires TempsExplained(s) && t.temps.Keys <= s.temps.Keys
    requires forall q, w :: q in t.temps && LeftBy(s, q, w) ==> LeftBy(t, q, w)
    ensures TempsExplained(t)
  {
    forall q | q in t.temps ensures exists w :: LeftBy(t, q, w) {
      var w :| LeftBy(s, q, w);
      assert LeftBy(t, q, w);
    }
  }

  function Begun(s: System, w: WriterId, data: string, tmp: string): System
  {
    s.(writers := s.writers[w := Writer(data, tmp, Named)])
  }

  lemma NamesAtBegin(s: System, w: WriterId, data: string, tmp: string)
    requires NamesApart(s) && w !in s.writers && NewName(s, tmp)
    ensures NamesApart(Begun(s, w, data, tmp))
  {
    var t := Begun(s, w, data, tmp);
    forall v, x | v in t.writers && x in t.writers && v != x
      ensures Apart(t, v, x)
    {
      assert v in s.writers && x in s.writers ==> Apart(s, v, x);
    }
  }

  lemma FilesAtBegin(s: System, w: WriterId, data: string, tmp: string)
    requires FilesFilled(s) && w !in s.writers
    ensures FilesFilled(Begun(s, w, data, tmp))
  {
    FilledAlike(s, Begun(s, w, data, tmp));
  }

  lemma OwnedAtBegin(s: System, w: WriterId, data: string, tmp: string)
    requires WritersOwn(s) && PublishedDone(s)
    ensures WritersOwn(Begun(s, w, data, tmp)) && PublishedDone(Begun(s, w, data, tmp))
  {
  }

  lemma FilledAlike(s: System, t: System)
    requires FilesFilled(s) && t.files == s.files
    requires forall v :: v in s.writers ==> v in t.writers && t.writers[v].data == s.writers[v].data
    ensures FilesFilled(t)
  {
    forall i | i in t.files
      ensures t.files[i].author in t.writers && t.writers[t.files[i].author].data == s.writers[t.files[i].author].data
    {
    }
  }

  lemma BoundAtBegin(s: System, w: WriterId, data: string, tmp: string)
    requires TempsBound(s)
    ensures TempsBound(Begun(s, w, data, tmp))
  {
    var t := Begun(s, w, data, tmp);
    forall v | v in t.writers
      ensures BoundFor(t, v)
    {
      assert v in s.writers ==> BoundFor(s, v);
    }
  }

  lemma BoundAtCreate(s: System, w: WriterId)
    requires NamesApart(s) && TempsBound(s) && w in s.writers && s.writers[w].pc.Named?
    ensures TempsBound(Created(s, w))
  {
    var t := Created(s, w);
    forall v | v in t.writers
      ensures BoundFor(t, v)
    {
      assert v in s.writers ==> BoundFor(s, v);
      assert v in s.writers && v != w ==> Apart(s, v, w);
    }
  }

  lemma BoundAtMove(s: System, w: WriterId, pc: Pc)
    requires TempsBound(s) && w in s.writers && !pc.Writing? && !pc.Full?
    ensures TempsBound(Moved(s, w, pc))
  {
    var t := Moved(s, w, pc);
    forall v | v in t.writers
      ensures BoundFor(t, v)
    {
      assert v in s.writers ==> BoundFor(s, v);
    }
  }

  lemma BoundAtFinish(s: System, w: WriterId)
    requires TempsBound(s) && w in s.writers && s.writers[w].pc.Writing? && s.writers[w].pc.ino in s.files
    ensures TempsBound(Finished(s, w))
  {
    var t := Finished(s, w);
    forall v | v in t.writers
      ensures BoundFor(t, v)
    {
      assert v in s.writers ==> BoundFor(s, v);
    }
  }

  lemma BoundAlike(s: System, t: System)
    requires TempsBound(s) && t.writers == s.writers && t.temps == s.temps
    ensures TempsBound(t)
  {
    forall v | v in t.writers
      ensures BoundFor(t, v)
    {
      assert BoundFor(s, v);
    }
  }

  /** Removing the name of one writer in flight leaves the others their names. */
  lemma BoundAtUnlink(s: System, w: WriterId, pc: Pc)
    requires NamesApart(s) && TempsBound(s) && w in s.writers && InFlight(s.writers[w].pc) && !InFlight(pc)
    ensures TempsBound(Moved(s, w, pc).(temps := s.temps - {s.writers[w].tmp}))
  {
    var t := Moved(s, w, pc).(temps := s.temps - {s.writers[w].tmp});
    forall v | v in t.writers
      ensures BoundFor(t, v)
    {
      assert v in s.writers ==> BoundFor(s, v);
      assert v in s.writers && v != w ==> Apart(s, v, w);
    }
  }

  lemma NamesAlike(s: System, t: System)
    requires NamesApart(s) && t.writers == s.writers && t.temps.Keys <= s.temps.Keys
    ensures NamesApart(t)
  {
    forall v, x | v in t.writers && x in t.writers && v != x
      ensures Apart(t, v, x)
    {
      assert Apart(s, v, x);
    }
  }

  lemma NamesAtUnlink(s: System, w: WriterId, pc: Pc)
    requires NamesApart(s) && w in s.writers && InFlight(s.writers[w].pc) && !InFlight(pc)
    ensures NamesApart(Moved(s, w, pc).(temps := s.temps - {s.writers[w].tmp}))
  {
    NamesAtMove(s, w, pc);
    NamesAlike(Moved(s, w, pc), Moved(s, w, pc).(temps := s.temps - {s.writers[w].tmp}));
  }

  lemma FilesAtUnlink(s: System, w: WriterId, pc: Pc)
    requires FilesFilled(s) && WritersOwn(s) && PublishedDone(s) && w in s.writers && !InFlight(pc)
    ensures var t := Moved(s, w, pc).(temps := s.temps - {s.writers[w].tmp});
            FilesFilled(t) && WritersOwn(t) && PublishedDone(t)
  {
    FilesAtMove(s, w, pc);
    FilesAlike(Moved(s, w, pc), Moved(s, w, pc).(temps := s.temps - {s.writers[w].tmp}));
  }

  lemma FilesAlike(s: System, t: System)
    requires FilesFilled(s) && WritersOwn(s) && PublishedDone(s) && t == s.(temps := t.temps)
    ensures FilesFilled(t) && WritersOwn(t) && PublishedDone(t)
  {
  }

  lemma KeptByBegin(s: System, w: WriterId, data: string, tmp: string)
    requires Inv(s) && w !in s.writers && NewName(s, tmp)
    ensures Inv(Begun(s, w, data, tmp))
  {
    NamesAtBegin(s, w, data, tmp);
    FilesAtBegin(s, w, data, tmp);
    OwnedAtBegin(s, w, data, tmp);
    BoundAtBegin(s, w, data, tmp);
    TempsStay(s, Begun(s, w, data, tmp));
  }

  lemma FilesAtCreate(s: System, w: WriterId)
    requires FilesFilled(s) && WritersOwn(s) && PublishedDone(s) && w in s.writers && s.writers[w].pc.Named?
    ensures FilesFilled(Created(s, w)) && WritersOwn(Created(s, w)) && PublishedDone(Created(s, w))
  {
  }

  lemma NamesAtCreate(s: System, w: WriterId)
    requires NamesApart(s) && w in s.writers && s.writers[w].pc.Named?
    ensures NamesApart(Created(s, w))
  {
    var t := Created(s, w);
    forall v, x | v in t.writers && x in t.writers && v != x
      ensures Apart(t, v, x)
    {
      assert v in s.writers && x in s.writers ==> Apart(s, v, x);
    }
    forall x | x in t.writers && t.writers[x].pc.Named?
      ensures t.writers[x].tmp !in t.temps
    {
      assert x != w && Apart(s, x, w);
    }
  }

  lemma KeptByCreate(s: System, w: WriterId)
    requires Inv(s) && w in s.writers && s.writers[w].pc.Named?
    ensures Inv(Created(s, w))
  {
    var t := Created(s, w);
    FilesAtCreate(s, w);
    NamesAtCreate(s, w);
    BoundAtCreate(s, w);
    forall q | q in t.temps ensures exists v :: LeftBy(t, q, v) {
      if q == s.writers[w].tmp {
        assert LeftBy(t, q, w);
      } else {
        var v :| LeftBy(s, q, v);
        assert LeftBy(t, q, v);
      }
    }
  }

  lemma FilesAtMove(s: System, w: WriterId, pc: Pc)
    requires FilesFilled(s) && WritersOwn(s) && PublishedDone(s) && w in s.writers && !pc.Writing? && !pc.Full?
    ensures FilesFilled(Moved(s, w, pc)) && WritersOwn(Moved(s, w, pc)) && PublishedDone(Moved(s, w, pc))
  {
  }

  lemma NamesAtMove(s: System, w: WriterId, pc: Pc)
    requires NamesApart(s) && w in s.writers && InFlight(s.writers[w].pc) && !pc.Named?
    ensures NamesApart(Moved(s, w, pc))
  {
    var t := Moved(s, w, pc);
    forall v, x | v in t.writers && x in t.writers && v != x
      ensures Apart(t, v, x)
    {
      assert v in s.writers && x in s.writers ==> Apart(s, v, x);
    }
  }

  lemma FilesAtFinish(s: System, w: WriterId)
    requires FilesFilled(s) && WritersOwn(s) && PublishedDone(s)
    requires w in s.writers && s.writers[w].pc.Writing? && s.writers[w].pc.ino in s.files
    requires |s.files[s.writers[w].pc.ino].bytes| == |s.writers[w].data|
    ensures FilesFilled(Finished(s, w)) && WritersOwn(Finished(s, w)) && PublishedDone(Finished(s, w))
  {
  }

  lemma FilesAtAppend(s: System, w: WriterId, n: nat)
    requires FilesFilled(s) && WritersOwn(s) && PublishedDone(s)
    requires w in s.writers && s.writers[w].pc.Writing? && s.writers[w].pc.ino in s.files
    requires |s.files[s.writers[w].pc.ino].bytes| + n <= |s.writers[w].data|
    ensures FilesFilled(Appended(s, w, n)) && WritersOwn(Appended(s, w, n)) && PublishedDone(Appended(s, w, n))
  {
  }

  lemma KeptByAppend(s: System, w: WriterId, n: nat)
    requires Inv(s) && w in s.writers && s.writers[w].pc.Writing? && s.writers[w].pc.ino in s.files
    requires |s.files[s.writers[w].pc.ino].bytes| + n <= |s.writers[w].data|
    ensures Inv(Appended(s, w, n))
  {
    FilesAtAppend(s, w, n);
    BoundAlike(s, Appended(s, w, n));
    NamesAlike(s, Appended(s, w, n));
    TempsStay(s, Appended(s, w, n));
  }

  lemma KeptByFinish(s: System, w: WriterId)
    requires Inv(s) && w in s.writers && s.writers[w].pc.Writing? && s.writers[w].pc.ino in s.files
    requires |s.files[s.writers[w].pc.ino].bytes| == |s.writers[w].data|
    ensures Inv(Finished(s, w))
  {
    FilesAtFinish(s, w);
    BoundAtFinish(s, w);
    NamesAtMove(s, w, Full(s.writers[w].pc.ino));
    NamesAlike(Moved(s, w, Full(s.writers[w].pc.ino)), Finished(s, w));
    TempsStay(s, Finished(s, w));
  }

  /** A step that only moves one writer on. */
  lemma KeptByMove(s: System, w: WriterId, pc: Pc)
    requires Inv(s) && w in s.writers && InFlight(s.writers[w].pc) && !pc.Named? && !pc.Writing? && !pc.Full?
    requires Leaves(s.writers[w].pc) ==> Leaves(pc)
    ensures Inv(Moved(s, w, pc))
  {
    FilesAtMove(s, w, pc);
    NamesAtMove(s, w, pc);
    BoundAtMove(s, w, pc);
    TempsStay(s, Moved(s, w, pc));
  }

  lemma KeptByPublishing(s: System, final: Option<Inode>)
    requires Inv(s) && (final.Some? ==> final.value in s.files && s.files[final.value].done)
    ensures Inv(s.(final := final))
  {
    BoundAlike(s, s.(final := final));
    NamesAlike(s, s.(final := final));
    TempsStay(s, s.(final := final));
  }

  lemma KeptByUnlink(s: System, w: WriterId, ok: bool)
    requires Inv(s) && w in s.writers && (s.writers[w].pc.Linked? || s.writers[w].pc.Broken? || s.writers[w].pc.Named?)
    ensures Inv(Moved(s, w, Returned(ok, true)).(temps := s.temps - {s.writers[w].tmp}))
  {
    var pc := Returned(ok, true);
    FilesAtUnlink(s, w, pc);
    NamesAtUnlink(s, w, pc);
    BoundAtUnlink(s, w, pc);
    TempsStay(s, Moved(s, w, pc).(temps := s.temps - {s.writers[w].tmp}));
  }

  lemma KeptByReader(s: System, r: ReaderId, rd: Reader)
    requires Inv(s) && rd.ino in s.files && s.files[rd.ino].done && rd.got <= s.files[rd.ino].bytes
    ensures Inv(s.(readers := s.readers[r := rd]))
  {
    BoundAlike(s, s.(readers := s.readers[r := rd]));
    NamesAlike(s, s.(readers := s.readers[r := rd]));
    TempsStay(s, s.(readers := s.readers[r := rd]));
  }

  lemma KeptByLink(s: System, w: WriterId)
    requires Inv(s) && Enabled(s, Link(w))
    ensures Inv(Step(s, Link(w)))
  {
    assert BoundFor(s, w);
    if s.final.Some? {
      KeptByMove(s, w, Linked(Exists));
    } else {
      KeptByMove(s, w, Linked(Won));
      KeptByPublishing(Moved(s, w, Linked(Won)), Some(s.writers[w].pc.ino));
    }
  }

  predicate Cleans(a: Action) { a.OpenError? || a.Unlink? || a.UnlinkError? || a.Crash? }

  lemma KeptByCleanup(s: System, a: Action)
    requires Inv(s) && Enabled(s, a) && Cleans(a)
    ensures Inv(Step(s, a))
  {
    var pc := s.writers[a.w].pc;
    match a
    case OpenError(w) => KeptByUnlink(s, w, false);
    case Unlink(w) => KeptByUnlink(s, w, pc.Linked? && ReturnsNil(pc.linkErr, true));
    case UnlinkError(w) => KeptByMove(s, w, Returned(pc.Linked? && ReturnsNil(pc.linkErr, false), false));
    case Crash(w) => KeptByMove(s, w, Dead);
  }

  lemma InvStep(s: System, a: Action)
    requires Inv(s) && Enabled(s, a) && (a.Begin? ==> NewName(s, a.tmp))
    ensures Inv(Step(s, a))
  {
    if Cleans(a) {
      KeptByCleanup(s, a);
    } else {
      match a
      case Begin(w, data, tmp) => KeptByBegin(s, w, data, tmp);
      case Create(w) => KeptByCreate(s, w);
      case Append(w, n) => KeptByAppend(s, w, n);
      case WriteDone(w) => KeptByFinish(s, w);
      case WriteError(w) => KeptByMove(s, w, Broken(s.writers[w].pc.ino));
      case Link(w) => KeptByLink(s, w);
      case LinkError(w) => KeptByMove(s, w, Linked(OtherError));
      case RemoveFinal => KeptByPublishing(s, None);
      case OpenRead(r) => KeptByReader(s, r, Reader(s.final.value, ""));
      case ReadMore(r, n) => KeptByReader(s, r, Step(s, a).readers[r]);
    }
  }

  // ---- traces ----

  /** t arises from s by a. */
  ghost predicate Next(s: System, a: Action, t: System)
  {
    Enabled(s, a) && t == Step(s, a)
  }

  ghost predicate NextAt(states: seq<System>, actions: seq<Action>, i: nat)
    requires i < |actions| && |states| == |actions| + 1
  {
    Next(states[i], actions[i], states[i + 1])
  }

  ghost predicate NewAt(states: seq<System>, actions: seq<Action>, i: nat)
    requires i < |actions| && |states| == |actions| + 1
  {
    actions[i].Begin? ==> NewName(states[i], actions[i].tmp)
  }

  /** states[i + 1] arises from states[i] by actions[i]; names need not be new. */
  ghost predicate LooseTrace(states: seq<System>, actions: seq<Action>)
  {
    && |states| == |actions| + 1 && states[0] == INITIAL
    && forall i :: 0 <= i < |actions| ==> NextAt(states, actions, i)
  }

  /** A trace in which every temporary name is new when it is drawn. */
  ghost predicate Trace(states: seq<System>, actions: seq<Action>)
  {
    && LooseTrace(states, actions)
    && forall i :: 0 <= i < |actions| ==> NewAt(states, actions, i)
  }

  lemma NextKeepsInv(s: System, a: Action, t: System)
    requires Inv(s) && Next(s, a, t) && (a.Begin? ==> NewName(s, a.tmp))
    ensures Inv(t)
  {
    InvStep(s, a);
  }

  lemma InvInitially()
    ensures Inv(INITIAL)
  {
  }

  lemma TraceStep(states: seq<System>, actions: seq<Action>, i: nat)
    requires Trace(states, actions) && i < |actions|
    ensures Next(states[i], actions[i], states[i + 1]) && (actions[i].Begin? ==> NewName(states[i], actions[i].tmp))
  {
    assert NextAt(states, actions, i) && NewAt(states, actions, i);
  }

  lemma {:induction false} InvAt(states: seq<System>, actions: seq<Action>, i: nat, s: System)
    requires Trace(states, actions) && i < |states| && s == states[i]
    ensures Inv(s)
    decreases i
  {
    if i == 0 {
      assert s == INITIAL;
      InvInitially();
    } else {
      InvAt(states, actions, i - 1, states[i - 1]);
      TraceStep(states, actions, i - 1);
      NextKeepsInv(states[i - 1], actions[i - 1], s);
    }
  }

  lemma InvThroughout(states: seq<System>, actions: seq<Action>, i: nat)
    requires Trace(states, actions) && i < |states|
    ensures Inv(states[i])
  {
    InvAt(states, actions, i, states[i]);
  }

  /** The bytes a reader of the final name would find. */
  function Published(s: System): Option<string>
  {
    if s.final.Some? && s.final.value in s.files then Some(s.files[s.final.value].bytes) else None
  }

  /** The reader has got a prefix of data, and all of it once it reaches the end of the file. */
  predicate ReadsOne(s: System, rd: Reader, data: string)
  {
    && rd.got <= data
    && (rd.ino in s.files && |rd.got| == |s.files[rd.ino].bytes| ==> rd.got == data)
  }

  /** The final name is absent or bound to one writer's complete data. */
  lemma PublishedIsComplete(states: seq<System>, actions: seq<Action>, i: nat)
    requires Trace(states, actions) && i < |states|
    ensures states[i].final.Some? ==>
              Published(states[i]).Some? && exists w :: w in states[i].writers && Published(states[i]).value == states[i].writers[w].data
    ensures forall r :: r in states[i].readers ==> exists w :: w in states[i].writers && ReadsOne(states[i], states[i].readers[r], states[i].writers[w].data)
  {
    InvThroughout(states, actions, i);
    var s := states[i];
    if s.final.Some? { assert s.files[s.final.value].author in s.writers; }
    forall r | r in s.readers ensures exists w :: w in s.writers && ReadsOne(s, s.readers[r], s.writers[w].data) {
      var w := s.files[s.readers[r].ino].author;
      assert w in s.writers && ReadsOne(s, s.readers[r], s.writers[w].data);
    }
  }

  /** A drawn name is not bound until its writer creates the file. */
  lemma NotYetCreated(s: System, w: WriterId)
    requires Inv(s) && w in s.writers && s.writers[w].pc.Named?
    ensures s.writers[w].tmp !in s.temps
  {
  }

  /** The step truncates the published file or appends to it. */
  predicate Overwrites(s: System, a: Action)
    requires s.final.Some? && s.final.value in s.files
  {
    match a
    case Create(w) =>
      && w in s.writers && s.writers[w].tmp in s.temps && s.temps[s.writers[w].tmp] == s.final.value
      && s.files[s.final.value].bytes != ""
    case Append(w, n) => w in s.writers && s.writers[w].pc.Writing? && s.writers[w].pc.ino == s.final.value && n > 0
    case _ => false
  }

  /** Of all system calls, under any names, exactly those change what is published. */
  lemma PublishedKeptExactly(s: System, a: Action, t: System)
    requires Next(s, a, t) && s.final.Some? && s.final.value in s.files && !a.RemoveFinal?
    ensures Published(t) == Published(s) <==> !Overwrites(s, a)
  {
    var i := s.final.value;
    assert t.final == Some(i) && i in t.files;
    if a.Append? && Overwrites(s, a) {
      assert |t.files[i].bytes| == |s.files[i].bytes| + a.n;
    } else {
      assert !Overwrites(s, a) ==> t.files[i].bytes == s.files[i].bytes;
    }
  }

  lemma FinalStays(s: System, a: Action, t: System)
    requires Next(s, a, t) && s.final.Some? && !a.RemoveFinal?
    ensures t.final == s.final
  {
  }

  /** Where names are new when drawn, nobody writes to a finished file. */
  lemma NeverOverwrites(s: System, a: Action)
    requires Inv(s) && s.final.Some? && Enabled(s, a)
    ensures s.final.value in s.files && !Overwrites(s, a)
  {
    if a.Create? { NotYetCreated(s, a.w); }
  }

  /** One step changes neither the binding of the final name nor its bytes, removal aside. */
  lemma StepKeepsPublished(s: System, a: Action, t: System)
    requires Inv(s) && Next(s, a, t) && s.final.Some? && !a.RemoveFinal?
    ensures t.final == s.final && Published(t) == Published(s)
  {
    FinalStays(s, a, t);
    NeverOverwrites(s, a);
    PublishedKeptExactly(s, a, t);
  }

  /** Until it is removed, a published name never changes its bytes. */
  lemma {:induction false} PublishedIsStable(states: seq<System>, actions: seq<Action>, i: nat, j: nat)
    requires Trace(states, actions) && i <= j < |states| && states[i].final.Some?
    requires forall k :: i <= k < j ==> !actions[k].RemoveFinal?
    ensures states[j].final == states[i].final && Published(states[j]) == Published(states[i])
    decreases j - i
  {
    if i < j {
      var s, a, t := states[j - 1], actions[j - 1], states[j];
      PublishedIsStable(states, actions, i, j - 1);
      TraceStep(states, actions, j - 1);
      InvThroughout(states, actions, j - 1);
      StepKeepsPublished(s, a, t);
    }
  }

  /** Once every writer has returned and could remove its file, no temporary name is left. */
  lemma NoTempsLeft(states: seq<System>, actions: seq<Action>, i: nat)
    requires Trace(states, actions) && i < |states|
    requires forall w :: w in states[i].writers ==> states[i].writers[w].pc.Returned? && states[i].writers[w].pc.clean
    ensures states[i].temps == map[]
  {
    InvThroughout(states, actions, i);
    assert forall t :: t in states[i].temps ==> exists w :: LeftBy(states[i], t, w);
    assert states[i].temps.Keys == {};
  }

  // ---- a successful return ----

  /** The writer is past a link that succeeded or found the name taken. */
  predicate SawName(pc: Pc)
  {
    match pc
    case Linked(r) => r != OtherError
    case Returned(ok, _) => ok
    case _ => false
  }

  /** A writer comes to have seen the name only by a link that leaves the name bound. */
  lemma SawNameOrigin(s: System, a: Action, t: System, w: WriterId)
    requires Next(s, a, t) && w in t.writers && SawName(t.writers[w].pc)
    ensures (w in s.writers && SawName(s.writers[w].pc)) || t.final.Some?
  {
  }

  /**
   * A write that returned nil left the entry in place: unless it was removed, the
   * final name is bound in every later state.
   */
  lemma {:induction false} SuccessMeansPresent(states: seq<System>, actions: seq<Action>, i: nat, w: WriterId)
    requires Trace(states, actions) && i < |states|
    requires w in states[i].writers && SawName(states[i].writers[w].pc)
    requires forall k :: 0 <= k < i ==> !actions[k].RemoveFinal?
    ensures states[i].final.Some?
  {
    assert i > 0;
    var s, a, t := states[i - 1], actions[i - 1], states[i];
    TraceStep(states, actions, i - 1);
    SawNameOrigin(s, a, t, w);
    if t.final.None? {
      SuccessMeansPresent(states, actions, i - 1, w);
      InvThroughout(states, actions, i - 1);
      StepKeepsPublished(s, a, t);
    }
  }

  // ---- without new names ----

  /** Every writer's program point and the final name, for the run below. */
  ghost function Duel(final: Option<Inode>, tmp: string, data: string, other: string, first: Pc, second: Option<Pc>, file: Option<File>): System
  {
    System(final, if file.Some? then map[tmp := 0] else map[], if file.Some? then map[0 := file.value] else map[],
           if second.Some? then map[0 := Writer(data, tmp, first), 1 := Writer(other, tmp, second.value)] else map[0 := Writer(data, tmp, first)],
           map[])
  }

  ghost function DuelStates(data: string, other: string, tmp: string): seq<System>
  {
    [INITIAL,
     Duel(None, tmp, data, other, Named, None, None),
     Duel(None, tmp, data, other, Writing(0), None, Some(File("", 0, false))),
     Duel(None, tmp, data, other, Writing(0), None, Some(File(data, 0, false))),
     Duel(None, tmp, data, other, Full(0), None, Some(File(data, 0, true))),
     Duel(None, tmp, data, other, Full(0), Some(Named), Some(File(data, 0, true))),
     Duel(Some(0), tmp, data, other, Linked(Won), Some(Named), Some(File(data, 0, true))),
     Duel(Some(0), tmp, data, other, Linked(Won), Some(Writing(0)), Some(File("", 0, true)))]
  }

  function DuelActions(data: string, other: string, tmp: string): seq<Action>
  {
    [Begin(0, data, tmp), Create(0), Append(0, |data|), WriteDone(0), Begin(1, other, tmp), Link(0), Create(1)]
  }

  lemma DuelCreate(data: string, other: string, tmp: string)
    ensures var s, a := DuelStates(data, other, tmp), DuelActions(data, other, tmp);
            Next(s[1], a[1], s[2])
  {
    var s := DuelStates(data, other, tmp);
    assert NewInode(s[1]) == 0 by { assert s[1].files.Keys == {}; }
  }

  lemma DuelBegin(data: string, other: string, tmp: string)
    ensures var s, a := DuelStates(data, other, tmp), DuelActions(data, other, tmp);
            Next(s[0], a[0], s[1])
  {
  }

  lemma DuelWrite(data: string, other: string, tmp: string)
    ensures var s, a := DuelStates(data, other, tmp), DuelActions(data, other, tmp);
            Next(s[2], a[2], s[3]) && Next(s[3], a[3], s[4])
  {
    assert "" + data[0..|data|] == data;
  }

  lemma DuelLink(data: string, other: string, tmp: string)
    ensures var s, a := DuelStates(data, other, tmp), DuelActions(data, other, tmp);
            Next(s[4], a[4], s[5]) && Next(s[5], a[5], s[6]) && Next(s[6], a[6], s[7])
  {
  }

  /**
   * Two writers that draw the same random suffix can destroy a published entry:
   * the second one's create truncates the inode the first one has linked.
   */
  lemma SharedNameDestroys(data: string, other: string, tmp: string)
    ensures var states := DuelStates(data, other, tmp);
            LooseTrace(states, DuelActions(data, other, tmp)) &&
            Published(states[6]) == Some(data) && Published(states[7]) == Some("")
  {
    DuelBegin(data, other, tmp);
    DuelCreate(data, other, tmp);
    DuelWrite(data, other, tmp);
    DuelLink(data, other, tmp);
    var states, actions := DuelStates(data, other, tmp), DuelActions(data, other, tmp);
    forall i | 0 <= i < |actions|
      ensures NextAt(states, actions, i)
    {
    }
  }
}
