/** The process table as the kernel keeps it: a list, an id bitmap, and destructors that run each other. */
module ProcessTables {
  import opened Common
  import opened Processes
  import opened Bitmaps

  class ProcessTable {
    var procs: map<nat, Process>
    var list: seq<nat>
    const pool: IdPool
    var next: nat
    ghost var freed: seq<nat>

    ghost predicate Valid()
      reads this, pool, pool.bitmap, pool.bitmap.data
    {
      pool.Valid() && forall q :: q in procs ==> procs[q].pid < Bitmaps.ID_COUNT
    }

    ghost function View(): State
      requires Valid()
      reads this, pool, pool.bitmap, pool.bitmap.data
    {
      State(procs, list, pool.Live(), next, freed)
    }

    constructor ()
      ensures Valid() && View() == State(map[], [], {}, 0, []) && fresh(pool) && fresh(pool.bitmap) && fresh(pool.bitmap.data)
    {
      procs, list, next, freed := map[], [], 0, [];
      pool := new IdPool();
    }

    /** Process::descriptor_dereferenced */
    method DescriptorDereferenced(q: nat) returns (ok: bool)
      requires Valid()
      modifies this, pool.bitmap.data
      ensures Valid() && ok == old(Dereference(View(), q)).Ok?
      ensures ok ==> old(Dereference(View(), q)) == Ok(View())
      decreases |procs|, 0, 1
    {
      if q !in procs || procs[q].refs == 0 {
        return false;
      }
      var p := procs[q];
      ghost var keys := procs.Keys;
      procs := procs[q := p.(refs := p.refs - 1)];
      assert procs.Keys == keys;
      if p.zombie && procs[q].refs == 0 {
        ok := CleanUp(q);
      } else {
        ok := true;
      }
    }

    /** Process::cleanup, Process::~Process and the destructors of its members */
    method CleanUp(q: nat) returns (ok: bool)
      requires Valid() && q in procs
      modifies this, pool.bitmap.data
      ensures Valid() && ok == old(Cleanup(View(), q)).Ok?
      ensures ok ==> old(Cleanup(View(), q)) == Ok(View())
      decreases |procs|, 0, 0
    {
      if q !in list {
        return false;
      }
      ghost var before := View();
      var p := procs[q];
      ok := pool.Release(p.pid);
      if !ok {
        return false;
      }
      assert (procs - {q}).Keys == procs.Keys - {q};
      list := Without(list, q);
      procs := procs - {q};
      freed := freed + [q];
      assert View() == Detached(before, q);
      ok := DestroyDescriptions(p.table);
    }

    /** The list of process descriptions destroys its members from the first to the last. */
    method DestroyDescriptions(ds: seq<Description>) returns (ok: bool)
      requires Valid()
      modifies this, pool.bitmap.data
      ensures Valid() && ok == old(DropAll(View(), ds)).Ok?
      ensures ok ==> old(DropAll(View(), ds)) == Ok(View())
      decreases |procs|, |ds| + 1, 0
    {
      var i := 0;
      ghost var goal := DropAll(View(), ds);
      assert ds[0..] == ds;
      while i < |ds|
        invariant 0 <= i <= |ds| && Valid() && |procs| <= old(|procs|)
        invariant DropAll(View(), ds[i..]) == goal
      {
        assert ds[i..][0] == ds[i] && ds[i..][1..] == ds[i + 1..];
        ok := DescriptorDereferenced(ds[i].target);
        if !ok {
          return false;
        }
        i := i + 1;
      }
      ok := true;
    }

    /** create_virtual_process and create_new_process, while an id is left */
    method CreateProcess() returns (q: nat)
      requires Valid() && Enabled(View(), DoCreate)
      modifies this, pool.bitmap.data
      ensures Valid() && old(Step(View(), DoCreate)) == Ok(View()) && q == old(next)
    {
      ghost var ids := pool.Live();
      IdsFull(pool.bitmap.data[..]);
      assert |ids| < Bitmaps.ID_COUNT;
      var pid := pool.Reserve();
      assert pid == LowestFree(ids, 0);
      q := next;
      procs := procs[q := Process(pid, false, 0, [], [])];
      list := list + [q];
      next := next + 1;
    }

    /** get_process_from_pid */
    method Find(pid: nat) returns (r: Option<nat>)
      requires Valid()
      ensures r == Lookup(procs, list, pid)
    {
      var i := 0;
      assert list[0..] == list;
      while i < |list|
        invariant 0 <= i <= |list| && Lookup(procs, list[i..], pid) == Lookup(procs, list, pid)
      {
        assert list[i..][0] == list[i] && list[i..][1..] == list[i + 1..];
        if list[i] in procs && procs[list[i]].pid == pid {
          return Some(list[i]);
        }
        i := i + 1;
      }
      return None;
    }

    /** OpenProcess; None is ERROR_INVALID_PID */
    method OpenProcess(opener: nat, pid: nat) returns (handle: Option<nat>)
      requires Valid() && Enabled(View(), DoOpen(opener, pid))
      modifies this
      ensures Valid() && old(Step(View(), DoOpen(opener, pid))) == Ok(View())
      ensures handle == if old(Lookup(procs, list, pid)).None? then None else Some(old(|procs[opener].handles|))
    {
      var q := Find(pid);
      if q.None? {
        return None;
      }
      procs := procs[q.value := procs[q.value].(refs := procs[q.value].refs + 1)];
      handle := Some(|procs[opener].handles|);
      procs := procs[opener := AddHandle(procs[opener], q)];
    }

    /** CloseHandle; `valid` is false for ERROR_INVALID_HANDLE */
    method CloseHandle(p: nat, handle: nat) returns (ok: bool, valid: bool)
      requires Valid() && Enabled(View(), DoClose(p, handle))
      modifies this, pool.bitmap.data
      ensures Valid() && ok == old(Step(View(), DoClose(p, handle))).Ok?
      ensures ok ==> old(Step(View(), DoClose(p, handle))) == Ok(View())
      ensures valid == (old(CheckHandle(procs[p], handle)) != Invalid)
    {
      valid := CheckHandle(procs[p], handle) != Invalid;
      if !valid {
        return true, false;
      }
      ok := true;
      if procs[p].handles[handle].ProcessDescription? {
        var picked := Picked(procs[p].table, handle);
        procs := procs[p := procs[p].(table := Dropped(procs[p].table, handle))];
        ok := DestroyDescriptions(picked);
        if !ok {
          return;
        }
      }
      if p !in procs || |procs[p].handles| <= handle {
        return false, true;
      }
      procs := procs[p := procs[p].(handles := procs[p].handles[handle := Invalid])];
    }

    /** Process::terminate after its threads have been terminated */
    method TerminateProcess(p: nat) returns (ok: bool)
      requires Valid() && p in procs
      modifies this, pool.bitmap.data
      ensures Valid() && ok == old(Step(View(), DoTerminate(p))).Ok?
      ensures ok ==> old(Step(View(), DoTerminate(p))) == Ok(View())
    {
      if procs[p].zombie {
        return false;
      }
      procs := procs[p := procs[p].(zombie := true)];
      ok := true;
      if procs[p].refs == 0 {
        ok := CleanUp(p);
      }
    }
  }
}
