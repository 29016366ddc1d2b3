/** The whole kernel: memory, processes and open files.  A file pointer is NULL in every slot
    without a process, so the reference counts count the pointers of the live processes. */
module Machine {
  import opened Common
  import opened Paging
  import opened Memory
  import opened Scheduler
  import opened ProcessFrames
  import opened Kernel
  import opened Fat
  import opened FileTables
  import FileCounts
  import Queues
  import Directory
  import opened Ownership

  ghost predicate Closed(procs: seq<Proc>, files: seq<int>) {
    && |procs| == NUM_PROC && |files| == FileCounts.SLOTS
    && forall i, k :: 0 <= i < NUM_PROC && !Live(procs, i) && First(i) <= k < First(i) + FileCounts.FILES_PER_PROC ==>
         files[k] == FileCounts.NULL
  }

  lemma AllClosed(procs: seq<Proc>, files: seq<int>)
    requires |procs| == NUM_PROC && |files| == FileCounts.SLOTS && forall k :: 0 <= k < |files| ==> files[k] == FileCounts.NULL
    ensures Closed(procs, files)
  {
  }

  /** The pointers of process i */
  function FilesOf(files: seq<int>, i: nat): seq<int>
    requires i < NUM_PROC && |files| == FileCounts.SLOTS
  {
    files[First(i)..First(i) + FileCounts.FILES_PER_PROC]
  }

  lemma CopiedSlots(files: seq<int>, child: nat, parent: nat)
    requires child < NUM_PROC && parent < NUM_PROC && child != parent && |files| == FileCounts.SLOTS
    ensures var files' := WithCopied(files, First(child), First(parent), FileCounts.FILES_PER_PROC);
            forall j :: 0 <= j < NUM_PROC ==> FilesOf(files', j) == if j == child then FilesOf(files, parent) else FilesOf(files, j)
  {
    var files' := WithCopied(files, First(child), First(parent), FileCounts.FILES_PER_PROC);
    forall j | 0 <= j < NUM_PROC
      ensures FilesOf(files', j) == if j == child then FilesOf(files, parent) else FilesOf(files, j)
    {
      OtherSlot(j, child);
    }
  }

  lemma ClearedSlots(files: seq<int>, slot: nat)
    requires slot < NUM_PROC && |files| == FileCounts.SLOTS
    ensures var files' := WithCleared(files, First(slot), FileCounts.FILES_PER_PROC);
            forall j :: 0 <= j < NUM_PROC && j != slot ==> FilesOf(files', j) == FilesOf(files, j)
  {
    var files' := WithCleared(files, First(slot), FileCounts.FILES_PER_PROC);
    forall j | 0 <= j < NUM_PROC && j != slot
      ensures FilesOf(files', j) == FilesOf(files, j)
    {
      OtherSlot(j, slot);
    }
  }

  lemma OtherSlot(i: nat, j: nat)
    ensures i != j ==> First(i) + FileCounts.FILES_PER_PROC <= First(j) || First(j) + FileCounts.FILES_PER_PROC <= First(i)
  {
  }

  lemma ForkClosed(procs: seq<Proc>, slot: nat, p: Proc, files: seq<int>, parent: nat)
    requires Closed(procs, files) && slot < NUM_PROC && parent < NUM_PROC && slot != parent && p.state != UNUSED
    ensures Closed(procs[slot := p], WithCopied(files, First(slot), First(parent), FileCounts.FILES_PER_PROC))
  {
  }

  lemma WaitClosed(procs: seq<Proc>, slot: nat, files: seq<int>)
    requires Closed(procs, files) && slot < NUM_PROC
    ensures Closed(procs[slot := NO_PROC], WithCleared(files, First(slot), FileCounts.FILES_PER_PROC))
  {
  }

  lemma SameLiveClosed(procs: seq<Proc>, procs': seq<Proc>, files: seq<int>)
    requires Closed(procs, files) && SameHoldings(procs, procs')
    ensures Closed(procs', files)
  {
  }

  lemma ForkSlots(t: Table, files: seq<int>)
    requires Inv(t) && Closed(t.procs, files) && FirstUnused(t.procs, 0) < NUM_PROC
    ensures var i := FirstUnused(t.procs, 0);
            i != t.current && t.current < NUM_PROC
            && forall k :: First(i) <= k < First(i) + FileCounts.FILES_PER_PROC ==> files[k] == FileCounts.NULL
  {
    assert !Live(t.procs, FirstUnused(t.procs, 0));
  }

  lemma SleptClosed(t: Table, files: seq<int>)
    requires Inv(t) && t.current != IDLE && Closed(t.procs, files)
    ensures CanSchedule(t) && Closed(Scheduler.Sleep(t, -3).procs, files)
  {
    hide Inv, Closed, Scheduler.Sleep;
    SleepHoldings(t, -3);
    SameLiveClosed(t.procs, Scheduler.Sleep(t, -3).procs, files);
  }

  lemma ReapedClosed(t: Table, pid: int, files: seq<int>)
    requires Inv(t) && Closed(t.procs, files) && Slots(t.killed, NUM_PROC) && Reapable(t, pid).Some?
    requires Reapable(t, pid).value < NUM_PROC
    ensures Closed(Scheduler.Reap(t, pid).procs, WithCleared(files, First(Reapable(t, pid).value), FileCounts.FILES_PER_PROC))
  {
    WaitClosed(t.procs, Reapable(t, pid).value, files);
    assert Scheduler.Reap(t, pid).procs == t.procs[Reapable(t, pid).value := NO_PROC];
  }

  /** The current process is alive, so it may have any files. */
  lemma PointerSet(t: Table, files: seq<int>, files': seq<int>, fd: int)
    requires Inv(t) && Closed(t.procs, files) && |files'| == |files|
    requires files' == files || (0 <= fd < FileCounts.FILES_PER_PROC && First(t.current) + fd < |files|
                                 && files' == files[First(t.current) + fd := files'[First(t.current) + fd]])
    ensures t.current < NUM_PROC && Closed(t.procs, files')
  {
    assert Live(t.procs, t.current);
    forall i | 0 <= i < NUM_PROC
      ensures i != t.current ==> First(i) + FileCounts.FILES_PER_PROC <= First(t.current)
                                 || First(t.current) + FileCounts.FILES_PER_PROC <= First(i)
    {
      OtherSlot(i, t.current);
    }
  }

  /** What one turn of wait(pid) makes of the process table, and the slot it reaps. */
  ghost predicate WaitGives(t: Table, pid: int, slot: int, t': Table) {
    && |t.procs| == NUM_PROC && Slots(t.killed, NUM_PROC) && CanSchedule(t)
    && if Reapable(t, pid).Some? then slot == Reapable(t, pid).value && t' == Scheduler.Reap(t, pid)
       else slot == Queues.NULL && t' == Scheduler.Sleep(t, -3)
  }

  class Machine {
    const kernel: Kernel
    const files: FileTables

    ghost predicate Apart() {
      files.files != kernel.processes.next && files.files != kernel.processes.tail
    }

    ghost predicate Valid()
      reads kernel, kernel.memory, kernel.processes, kernel.processes.procs, kernel.processes.next, kernel.processes.tail
      reads files.fcbs, files.descs, files.files
    {
      kernel.Valid() && files.Valid() && Apart() && Closed(kernel.processes.procs[..], files.files[..])
    }

    constructor (m: Memory, v: Volume, program: seq<byte>)
      requires m.Clean() && 12 <= |m.free| && |program| <= PAGE_SIZE && Fields(v)
      requires forall f :: f in m.owner ==> m.owner[f].Boot? || m.owner[f].Free?
      modifies m
      ensures Valid()
    {
      hide FreeListOk, FramesOk, MapsOk, UsersOk, Queues.AllLists, Owned, AllComplete, FileCounts.CountsOk, Inv, Closed, Recorded;
      kernel := new Kernel(m, program);
      files := new FileTables(v);
      new;
      AllClosed(kernel.processes.procs[..], files.files[..]);
    }

    /** fork: memory, process table and open files of the child. */
    method Fork() returns (pid: int)
      requires Valid() && kernel.processes.current != IDLE && FirstUnused(kernel.processes.procs[..], 0) < NUM_PROC
      requires FRAMES_PER_PROCESS <= |kernel.memory.free|
      modifies kernel, kernel.memory, kernel.processes, kernel.processes.procs, kernel.processes.next, kernel.processes.tail
      modifies files.fcbs, files.descs, files.files
      ensures Valid() && pid == old(kernel.processes.pidNum)
      ensures old(kernel.processes.current) < NUM_PROC && |old(files.files[..])| == FileCounts.SLOTS
      ensures var child, parent := old(FirstUnused(kernel.processes.procs[..], 0)), old(kernel.processes.current);
              forall j :: 0 <= j < NUM_PROC ==>
                FilesOf(files.files[..], j) == FilesOf(old(files.files[..]), if j == child then parent else j)
      ensures kernel.processes.Abs() ==
              Scheduler.Fork(old(kernel.processes.Abs()), old(kernel.memory.free)[0], old(kernel.memory.free)[1])
      ensures pid !in old(kernel.taken)
      ensures kernel.taken == old(kernel.taken)[pid := Elements(old(kernel.memory.free)[..FRAMES_PER_PROCESS])]
      ensures kernel.memory.free == old(kernel.memory.free)[FRAMES_PER_PROCESS..]
      ensures KeptInUse(old(kernel.memory.mem), old(kernel.memory.owner), kernel.memory.mem, kernel.memory.owner)
      ensures var parent, child := old(kernel.processes.procs[kernel.processes.current]).pageMap, old(kernel.memory.free)[1];
              && PageLeaf(kernel.memory.mem, child, USER_PAGE).Some? && old(PageLeaf(kernel.memory.mem, parent, USER_PAGE)).Some?
              && var p, c := old(kernel.memory.UserFrameOf(parent)), kernel.memory.UserFrameOf(child);
                 p in old(kernel.memory.mem) && c in kernel.memory.mem && kernel.memory.mem[c] == old(kernel.memory.mem)[p]
    {
      hide FreeListOk, FramesOk, MapsOk, UsersOk, Queues.AllLists, Owned, AllComplete, FileCounts.CountsOk, Inv, Recorded;
      hide Closed, FirstUnused, WithCopied, FilesOf, Scheduler.Fork, FramesOf;
      hide KeptInUse, PageLeaf, P2V, PteAddr, Elements, Directory.Infos, Live;
      ghost var t0, files0 := kernel.processes.Abs(), files.files[..];
      ghost var procs0 := t0.procs;
      ForkSlots(kernel.processes.Abs(), files0);
      var slot := kernel.processes.FindUnused();
      var parent := kernel.processes.current;
      ghost var stack, root := kernel.memory.free[0], kernel.memory.free[1];
      ForkSlot(t0, stack, root);
      pid := kernel.Fork();
      files.CopyFiles(slot, parent);
      ForkClosed(procs0, slot, kernel.processes.procs[slot], files0, parent);
      CopiedSlots(files0, slot, parent);
    }

    /** wait: when a killed process is reaped, its files are closed too. */
    method Wait(pid: int) returns (slot: int)
      requires Valid() && kernel.processes.current != IDLE
      modifies kernel, kernel.memory, kernel.processes, kernel.processes.procs, kernel.processes.next, kernel.processes.tail
      modifies files.fcbs, files.descs, files.files
      ensures Valid() && WaitGives(old(kernel.processes.Abs()), pid, slot, kernel.processes.Abs())
      ensures kernel.taken == old(kernel.taken)
      ensures slot == Queues.NULL ==>
                && files.files[..] == old(files.files[..]) && kernel.memory.free == old(kernel.memory.free)
                && kernel.memory.mem == old(kernel.memory.mem) && kernel.memory.owner == old(kernel.memory.owner)
      ensures slot != Queues.NULL ==>
                && files.files[..] == WithCleared(old(files.files[..]), First(slot), FileCounts.FILES_PER_PROC)
                && forall j :: 0 <= j < NUM_PROC && j != slot ==> FilesOf(files.files[..], j) == FilesOf(old(files.files[..]), j)
      ensures slot != Queues.NULL ==>
                var free0, t := old(kernel.memory.free), old(kernel.processes.Abs());
                && pid in kernel.taken && |kernel.taken[pid]| == FRAMES_PER_PROCESS
                && |kernel.memory.free| == |free0| + FRAMES_PER_PROCESS
                && Elements(kernel.memory.free) == Elements(free0) + kernel.taken[pid] && Elements(free0) !! kernel.taken[pid]
                && forall j :: 0 <= j < NUM_PROC && j != slot && Live(t.procs, j) ==>
                     MapKept(old(kernel.memory.mem), old(kernel.memory.owner), kernel.memory.mem, kernel.memory.owner, t.procs[j].pageMap)
    {
      hide FreeListOk, FramesOk, MapsOk, UsersOk, Queues.AllLists, Owned, AllComplete, FileCounts.CountsOk, Inv, Recorded;
      hide Closed, WithCleared, FilesOf;
      hide Scheduler.Reap, Scheduler.Sleep, Reapable, FramesOf, Demolished, MapKept, KeptInUse, PageLeaf;
      hide Suffix, Directory.Infos, Live;
      ghost var t0, files0 := kernel.processes.Abs(), files.files[..];
      slot := kernel.Wait(pid);
      if slot == Queues.NULL {
        SleptClosed(t0, files0);
      } else {
        files.ReleaseFiles(slot);
        ReapedClosed(t0, pid, files0);
        ClearedSlots(files0, slot);
      }
    }

    /** open_file by the current process: the lowest free slot names a fresh descriptor at the
        start of the first matching file. */
    method Open(path: seq<byte>) returns (fd: int)
      requires Valid() && 0 !in path
      modifies files.fcbs, files.descs, files.files
      ensures Valid() && kernel.processes.current < NUM_PROC && files.files.Length == FileCounts.SLOTS
      ensures fd == -1 <==> !(HasFreePointer(old(files.files[..]), kernel.processes.current) && Directory.Exists(files.volume, path))
      ensures fd == -1 ==>
                && files.files[..] == old(files.files[..]) && files.descs[..] == old(files.descs[..])
                && files.fcbs[..] == old(files.fcbs[..])
      ensures fd != -1 ==> OpenGives(files.volume, path, kernel.processes.current, fd, old(files.descs[..]), old(files.files[..]),
                                     files.fcbs[..], files.descs[..], files.files[..])
    {
      hide FreeListOk, FramesOk, MapsOk, UsersOk, Queues.AllLists, Owned, AllComplete, FileCounts.CountsOk, Inv, Recorded;
      hide Closed, WithCleared, FilesOf;
      hide Scheduler.Reap, Scheduler.Sleep, Reapable, FramesOf, Demolished, MapKept, KeptInUse, PageLeaf;
      hide Suffix, Directory.Infos, Live;
      ghost var files0 := files.files[..];
      fd := files.OpenFile(kernel.processes.current, path);
      PointerSet(kernel.processes.Abs(), files0, files.files[..], fd);
    }

    method Close(fd: nat)
      requires Valid() && fd < FileCounts.FILES_PER_PROC
      requires files.files[First(kernel.processes.current) + fd] != FileCounts.NULL
      modifies files.fcbs, files.descs, files.files
      ensures Valid() && kernel.processes.current < NUM_PROC
      ensures files.files[..] == old(files.files[..])[First(kernel.processes.current) + fd := FileCounts.NULL]
    {
      hide FreeListOk, FramesOk, MapsOk, UsersOk, Queues.AllLists, Owned, AllComplete, FileCounts.CountsOk, Inv, Recorded;
      hide Closed, WithCleared, FilesOf;
      hide Scheduler.Reap, Scheduler.Sleep, Reapable, FramesOf, Demolished, MapKept, KeptInUse, PageLeaf;
      hide Suffix, Directory.Infos, Live;
      ghost var files0 := files.files[..];
      files.CloseFile(kernel.processes.current, fd);
      PointerSet(kernel.processes.Abs(), files0, files.files[..], fd);
    }

    /** exit leaves the files of the process open and its frames taken; wait gives them back. */
    method Exit()
      requires Valid() && kernel.processes.current != IDLE
      modifies kernel.processes, kernel.processes.procs, kernel.processes.next, kernel.processes.tail
      ensures Valid() && CanSchedule(old(kernel.processes.Abs())) && old(kernel.processes.procs[kernel.processes.current]).pid != 0
      ensures Slots(old(kernel.processes.Abs()).waiting, NUM_PROC)
      ensures kernel.processes.Abs() == Scheduler.Exit(old(kernel.processes.Abs()))
    {
      hide FreeListOk, FramesOk, MapsOk, UsersOk, Queues.AllLists, Owned, AllComplete, FileCounts.CountsOk, Inv, Recorded;
      hide Closed, Scheduler.Exit, SameHoldings, Directory.Infos;
      ghost var t0, files0 := kernel.processes.Abs(), files.files[..];
      kernel.Exit();
      ExitHoldings(t0);
      SameLiveClosed(t0.procs, kernel.processes.procs[..], files0);
    }

    /** The sleep inside sys_sleep and read_key_buffer. */
    method Sleep(wait: int)
      requires Valid() && kernel.processes.current != IDLE
      modifies kernel.processes, kernel.processes.procs, kernel.processes.next, kernel.processes.tail
      ensures Valid() && CanSchedule(old(kernel.processes.Abs()))
      ensures kernel.processes.Abs() == Scheduler.Sleep(old(kernel.processes.Abs()), wait)
    {
      hide FreeListOk, FramesOk, MapsOk, UsersOk, Queues.AllLists, Owned, AllComplete, FileCounts.CountsOk, Inv, Recorded;
      hide Closed, Scheduler.Sleep, SameHoldings, Directory.Infos;
      ghost var t0, files0 := kernel.processes.Abs(), files.files[..];
      kernel.Sleep(wait);
      SleepHoldings(t0, wait);
      SameLiveClosed(t0.procs, kernel.processes.procs[..], files0);
    }

    /** The timer interrupt. */
    method Timer()
      requires Valid()
      modifies kernel.processes, kernel.processes.procs, kernel.processes.next, kernel.processes.tail
      ensures Valid() && Slots(old(kernel.processes.Abs()).waiting, NUM_PROC)
      ensures var t := Scheduler.WakeUp(old(kernel.processes.Abs()), -1);
              && |t.procs| == NUM_PROC && t.current < NUM_PROC && (t.ready == [] || CanSchedule(t))
              && kernel.processes.Abs() == Scheduler.Yield(t)
    {
      hide FreeListOk, FramesOk, MapsOk, UsersOk, Queues.AllLists, Owned, AllComplete, FileCounts.CountsOk, Inv, Recorded;
      hide Closed, Scheduler.WakeUp, Scheduler.Yield, SameHoldings, Directory.Infos;
      ghost var t0, files0 := kernel.processes.Abs(), files.files[..];
      kernel.Timer();
      TimerHoldings(t0);
      SameLiveClosed(t0.procs, kernel.processes.procs[..], files0);
    }

    /** What the keyboard interrupt does when there is a character. */
    method WakeUp(wait: int)
      requires Valid()
      modifies kernel.processes, kernel.processes.procs, kernel.processes.next, kernel.processes.tail
      ensures Valid() && Slots(old(kernel.processes.Abs()).waiting, NUM_PROC)
      ensures kernel.processes.Abs() == Scheduler.WakeUp(old(kernel.processes.Abs()), wait)
    {
      hide FreeListOk, FramesOk, MapsOk, UsersOk, Queues.AllLists, Owned, AllComplete, FileCounts.CountsOk, Inv, Recorded;
      hide Closed, Scheduler.WakeUp, SameHoldings, Directory.Infos;
      ghost var t0, files0 := kernel.processes.Abs(), files.files[..];
      kernel.WakeUp(wait);
      WokenHoldings(t0, wait);
      SameLiveClosed(t0.procs, kernel.processes.procs[..], files0);
    }

    /** read_file by the current process. */
    method ReadFile(fd: nat, buffer: array<byte>, size: nat, ghost n: nat) returns (r: int)
      requires Valid() && files.Readable(kernel.processes.current, fd, size, n) && size <= buffer.Length
      modifies buffer, files.descs
      ensures Valid()
      ensures kernel.processes.current < NUM_PROC && files.files.Length == FileCounts.SLOTS
      ensures 0 <= files.files[First(kernel.processes.current) + fd] < files.descs.Length
      ensures var d := files.files[First(kernel.processes.current) + fd];
              && 0 <= old(files.descs[d]).fcb < files.fcbs.Length
              && var f, at := files.fcbs[old(files.descs[d]).fcb].file, old(files.descs[d]).position;
                 && ReadGives(files.volume, f, at, size, old(buffer[..]), n, r, buffer[..])
                 && files.descs[..] == old(files.descs[..])[d := old(files.descs[d]).(position := if r == -1 then at else at + r)]
    {
      hide FreeListOk, FramesOk, MapsOk, UsersOk, Queues.AllLists, Owned, AllComplete, FileCounts.CountsOk, Recorded, Inv;
      hide Closed, Directory.Infos, ReadGives;
      r := files.ReadFile(kernel.processes.current, fd, buffer, size, n);
    }
  }
}
