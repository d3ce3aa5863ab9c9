/** The pool of virtual cpus (km/km_cpu_init.c, km/km_init_guest.c). Each operation runs under the
    pool's lock and is one atomic step here. */
module VcpuPool {
  import opened Sequences

  const KVM_MAX_VCPUS: nat := 288
  const EAGAIN: int := -11
  const EINVAL: int := -22

  datatype State = ParkedIdle | Starting | Running

  datatype Vcpu = Vcpu(id: nat, state: State, hasThread: bool)

  datatype Slot = Null | Used(vcpu: Vcpu)

  /** At most n distinct numbers lie below n, and n of them are all. */
  lemma {:induction false} Pigeons(s: seq<int>, n: nat)
    requires Distinct(s) && forall x :: x in s ==> 0 <= x < n
    ensures |s| <= n && (|s| == n <==> forall x :: 0 <= x < n ==> x in s)
    decreases n
  {
    assert |s| > 0 ==> s[0] in s && 0 <= s[0] < n;
    if n == 0 {
      assert |s| == 0;
    } else if n - 1 in s {
      var k :| 0 <= k < |s| && s[k] == n - 1;
      var t := s[..k] + s[k + 1..];
      assert forall x :: x in t ==> x in s;
      assert forall x :: x in s && x != n - 1 ==> x in t;
      assert n - 1 !in t;
      Pigeons(t, n - 1);
    } else {
      Pigeons(s, n - 1);
    }
  }

  /** The slots of the pool as a value. */
  datatype Table = Table(slots: seq<Slot>, cnt: nat, idle: seq<int>) {
    /** The vcpu exists and runs, or is about to. */
    predicate Live(id: int) {
      0 <= id < |slots| && slots[id].Used? && slots[id].vcpu.state != ParkedIdle
    }

    predicate Idle(id: int) {
      0 <= id < |slots| && slots[id].Used? && slots[id].vcpu.state == ParkedIdle
    }

    /** A vcpu with a thread can be had: the first idle one has a thread or can get one, and without any
        idle one a new vcpu and its thread can be made. */
    predicate CanRun(memory: bool, init: bool, created: bool) {
      if idle == [] then cnt < KVM_MAX_VCPUS && memory && init && created
      else created || (0 <= idle[0] < |slots| && slots[idle[0]].Used? && slots[idle[0]].vcpu.hasThread)
    }

    /** A dense prefix of slots, each at its own index; the idle list holds the parked ones, once each. */
    ghost predicate Ok() {
      && |slots| == KVM_MAX_VCPUS && cnt <= KVM_MAX_VCPUS
      && (forall i :: 0 <= i < |slots| ==> (slots[i].Used? <==> i < cnt))
      && (forall i :: 0 <= i < cnt ==> slots[i].vcpu.id == i)
      && Distinct(idle)
      && (forall i :: i in idle <==> Idle(i))
    }
  }

  /** All vcpus are on the idle list exactly when none is live. */
  lemma AllIdle(t: Table)
    requires t.Ok()
    ensures |t.idle| <= t.cnt && (|t.idle| == t.cnt <==> forall i :: !t.Live(i))
  {
    Pigeons(t.idle, t.cnt);
    if forall x :: 0 <= x < t.cnt ==> x in t.idle {
      forall i
        ensures !t.Live(i)
      {
        if 0 <= i < t.cnt {
          assert i in t.idle;
        }
      }
    }
    if forall i :: !t.Live(i) {
      forall x | 0 <= x < t.cnt
        ensures x in t.idle
      {
        assert !t.Live(x);
      }
    }
  }

  /** Waking the first idle vcpu. */
  lemma WakeKeeps(t: Table)
    requires t.Ok() && t.idle != []
    ensures var id := t.idle[0];
            t.Idle(id) && Table(t.slots[id := Used(t.slots[id].vcpu.(state := Starting))], t.cnt, t.idle[1..]).Ok()
  {
    var id := t.idle[0];
    assert id in t.idle && t.Idle(id);
    var u := Table(t.slots[id := Used(t.slots[id].vcpu.(state := Starting))], t.cnt, t.idle[1..]);
    assert t.idle == [id] + u.idle;
    forall i
      ensures i in u.idle <==> u.Idle(i)
    {
      assert i in t.idle <==> t.Idle(i);
    }
  }

  lemma ParkKeeps(t: Table, id: nat)
    requires t.Ok() && t.Live(id)
    ensures Table(t.slots[id := Used(t.slots[id].vcpu.(state := ParkedIdle))], t.cnt, [id] + t.idle).Ok()
  {
    var u := Table(t.slots[id := Used(t.slots[id].vcpu.(state := ParkedIdle))], t.cnt, [id] + t.idle);
    assert id !in t.idle;
    forall i
      ensures i in u.idle <==> u.Idle(i)
    {
      assert i in t.idle <==> t.Idle(i);
    }
  }

  class Pool {
    const vcpus: array<Slot>
    var cnt: nat // vm_vcpu_cnt
    var runCnt: int // vm_vcpu_run_cnt
    var idle: seq<int> // vm_idle_vcpus, first is the head
    var exitGroup: bool
    var finis: nat // how often km_signal_machine_fini was called

    ghost function Abs(): Table
      reads this, vcpus
    {
      Table(vcpus[..], cnt, idle)
    }

    ghost predicate Valid()
      reads this, vcpus
    {
      Abs().Ok() && runCnt == cnt - |idle|
    }

    constructor ()
      ensures Valid() && cnt == 0 && idle == [] && finis == 0 && !exitGroup && fresh(vcpus)
    {
      vcpus := new Slot[KVM_MAX_VCPUS](_ => Null);
      cnt, runCnt, idle, exitGroup, finis := 0, 0, [], false, 0;
    }

    // km_vcpu_get; `memory` and `init` say whether a new vcpu can be allocated and set up
    method Get(memory: bool, init: bool) returns (id: int)
      requires Valid()
      modifies this, vcpus
      ensures Valid() && exitGroup == old(exitGroup) && finis == old(finis)
      ensures id == -1 <==> exitGroup || (old(idle) == [] && (old(cnt) == KVM_MAX_VCPUS || !memory || !init))
      ensures id == -1 ==> Abs() == old(Abs())
      ensures id != -1 ==> 0 <= id < KVM_MAX_VCPUS && !old(Abs()).Live(id)
      ensures id != -1 ==> vcpus[id] == Used(Vcpu(id, Starting, old(vcpus[id]).Used? && old(vcpus[id]).vcpu.hasThread))
      ensures id != -1 ==> forall i :: 0 <= i < vcpus.Length && i != id ==> vcpus[i] == old(vcpus[i])
      ensures id != -1 ==> if old(idle) == [] then idle == [] && cnt == old(cnt) + 1 && id == old(cnt)
                           else old(idle) == [id] + idle && cnt == old(cnt)
    {
      if exitGroup {
        return -1;
      }
      if idle != [] {
        WakeKeeps(Abs());
        id := idle[0];
        idle := idle[1..];
        runCnt := runCnt + 1;
        vcpus[id] := Used(vcpus[id].vcpu.(state := Starting));
        return;
      }
      if cnt == KVM_MAX_VCPUS || !memory {
        return -1;
      }
      id := cnt;
      if !init {
        return -1;
      }
      cnt := cnt + 1;
      runCnt := runCnt + 1;
      vcpus[id] := Used(Vcpu(id, Starting, false));
    }

    // km_vcpu_put
    method Put(id: nat)
      requires Valid() && Abs().Live(id)
      modifies this, vcpus
      ensures Valid() && exitGroup == old(exitGroup) && cnt == old(cnt) && idle == [id] + old(idle)
      ensures vcpus[id] == Used(old(vcpus[id]).vcpu.(state := ParkedIdle))
      ensures forall i :: 0 <= i < vcpus.Length && i != id ==> vcpus[i] == old(vcpus[i])
      ensures finis == old(finis) + if forall i :: !Abs().Live(i) then 1 else 0
    {
      ParkKeeps(Abs(), id);
      vcpus[id] := Used(vcpus[id].vcpu.(state := ParkedIdle));
      idle := [id] + idle;
      runCnt := runCnt - 1;
      AllIdle(Abs());
      if runCnt == 0 {
        finis := finis + 1; // km_signal_machine_fini
      }
    }

    // km_run_vcpu_thread; `created` says whether a thread can be created
    method RunThread(id: nat, created: bool) returns (rc: int)
      requires Valid() && Abs().Live(id) && vcpus[id].vcpu.state == Starting
      modifies vcpus
      ensures Valid() && (rc < 0 <==> !old(vcpus[id]).vcpu.hasThread && !created)
      ensures vcpus[id] == if rc < 0 then old(vcpus[id]) else Used(Vcpu(id, Running, true))
      ensures forall i :: 0 <= i < vcpus.Length && i != id ==> vcpus[i] == old(vcpus[i])
    {
      rc := if vcpus[id].vcpu.hasThread || created then 0 else EAGAIN;
      if rc == 0 {
        vcpus[id] := Used(vcpus[id].vcpu.(state := Running, hasThread := true));
      }
    }

    /** Thread id of a vcpu, km_vcpu_get_tid. */
    function Tid(id: int): int {
      id + 1
    }

    // km_clone, called by a running vcpu; `stack` says whether the child's stack is memory of the guest
    method Clone(caller: nat, stack: bool, memory: bool, init: bool, created: bool) returns (tid: int)
      requires Valid() && Abs().Live(caller)
      modifies this, vcpus
      ensures Valid() && exitGroup == old(exitGroup) && finis == old(finis)
      ensures tid == EINVAL <==> !stack
      ensures tid == EAGAIN <==> stack && (exitGroup || !old(Abs()).CanRun(memory, init, created))
      ensures tid < 0 ==> tid == EINVAL || tid == EAGAIN
      ensures tid < 0 ==> forall i :: Abs().Live(i) <==> old(Abs()).Live(i)
      ensures tid >= 0 ==> !old(Abs()).Live(tid - 1) &&
                           forall i :: Abs().Live(i) <==> old(Abs()).Live(i) || i == tid - 1
      ensures tid >= 0 ==> 0 < tid <= vcpus.Length && vcpus[tid - 1] == Used(Vcpu(tid - 1, Running, true))
      ensures forall i :: 0 <= i < vcpus.Length && old(Abs()).Live(i) ==> vcpus[i] == old(vcpus[i])
    {
      if !stack {
        return EINVAL;
      }
      var id := Get(memory, init);
      if id == -1 {
        return EAGAIN;
      }
      assert Abs().Live(caller);
      var rc := RunThread(id, created);
      if rc < 0 {
        Put(id);
        assert Abs().Live(caller);
        return EAGAIN;
      }
      tid := Tid(id);
    }

    // km_vcpu_apply_all: the vcpus the callback is called for, in order
    method ApplyAll() returns (visited: seq<int>)
      requires Valid()
      ensures forall i :: i in visited <==> Abs().Live(i)
      ensures forall i, j :: 0 <= i < j < |visited| ==> visited[i] < visited[j]
    {
      visited := [];
      var i := 0;
      while i < KVM_MAX_VCPUS
        invariant 0 <= i <= KVM_MAX_VCPUS
        invariant forall x :: x in visited <==> x < i && Abs().Live(x)
        invariant forall a :: 0 <= a < |visited| ==> visited[a] < i
        invariant forall a, b :: 0 <= a < b < |visited| ==> visited[a] < visited[b]
      {
        if vcpus[i].Null? {
          break; // vcpus are allocated sequentially
        }
        if vcpus[i].vcpu.state != ParkedIdle {
          visited := visited + [i];
        }
        i := i + 1;
      }
    }

    // km_vcpu_fetch_by_tid; -1 for none
    method FetchByTid(tid: int) returns (id: int)
      requires Valid()
      ensures id == if Abs().Live(tid - 1) && tid != KVM_MAX_VCPUS then tid - 1 else -1
    {
      if 0 < tid < KVM_MAX_VCPUS && vcpus[tid - 1].Used? && vcpus[tid - 1].vcpu.state != ParkedIdle {
        return vcpus[tid - 1].vcpu.id;
      }
      return -1;
    }
  }

  /** Lookup by thread id inverts thread ids, except for the last vcpu, which cannot be looked up. */
  method TidInverts(pool: Pool, id: nat) returns (found: int)
    requires pool.Valid() && pool.Abs().Live(id)
    ensures found == id <==> id != KVM_MAX_VCPUS - 1
  {
    found := pool.FetchByTid(pool.Tid(id));
  }

  // ---- runs ------------------------------------------------------------------------------------------

  datatype Call =
    | GetCall(memory: bool, init: bool)
    | RunCall(id: nat, created: bool)
    | CloneCall(caller: nat, stack: bool, memory: bool, init: bool, created: bool)
    | StopCall(id: nat)
    | ExitCall

  /** The pool stays well formed over every run; a thread stops or clones only while its vcpu is live. */
  method Run(pool: Pool, calls: seq<Call>)
    requires pool.Valid()
    modifies pool, pool.vcpus
    ensures pool.Valid()
  {
    var k := 0;
    while k < |calls|
      invariant pool.Valid()
    {
      match calls[k] {
        case GetCall(memory, init) =>
          var _ := pool.Get(memory, init);
        case RunCall(id, created) =>
          if id < pool.vcpus.Length && pool.vcpus[id].Used? && pool.vcpus[id].vcpu.state == Starting {
            var _ := pool.RunThread(id, created);
          }
        case CloneCall(caller, stack, memory, init, created) =>
          if caller < pool.vcpus.Length && pool.vcpus[caller].Used? && pool.vcpus[caller].vcpu.state == Running {
            var _ := pool.Clone(caller, stack, memory, init, created);
          }
        case StopCall(id) =>
          if id < pool.vcpus.Length && pool.vcpus[id].Used? && pool.vcpus[id].vcpu.state == Running {
            pool.Put(id); // km_vcpu_stopped
          }
        case ExitCall =>
          pool.exitGroup := true;
      }
      k := k + 1;
    }
  }
}
