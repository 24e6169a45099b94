/** The worker pool: stop channels, their workers, and the calls that grow and
    shrink the pool. */
module WorkerPool {
  import opened Options
  import opened Picking
  import opened Scaling

  /** A stop channel of capacity one, made for the worker `id`. */
  class StopChan {
    const id: int
    var buffered: nat
    var closed: bool
    ghost var sends: nat
    ghost var closes: nat

    constructor (id: int)
      ensures this.id == id && buffered == 0 && !closed && sends == 0 && closes == 0
    {
      this.id, buffered, closed, sends, closes := id, 0, false, 0, 0;
    }

    /** A send blocks on a full channel and panics on a closed one. */
    method Send()
      requires !closed && buffered < 1
      modifies this
      ensures buffered == old(buffered) + 1 && sends == old(sends) + 1
      ensures closed == old(closed) && closes == old(closes)
    {
      buffered, sends := buffered + 1, sends + 1;
    }

    /** Closing twice panics. */
    method Close()
      requires !closed
      modifies this
      ensures closed && closes == old(closes) + 1
      ensures buffered == old(buffered) && sends == old(sends)
    {
      closed, closes := true, closes + 1;
    }

    /** The worker takes the stop signal. */
    method Receive()
      requires buffered > 0
      modifies this`buffered
      ensures buffered == old(buffered) - 1
    {
      buffered := buffered - 1;
    }

    ghost predicate Unsignalled()
      reads this
    {
      sends == 0 && closes == 0 && !closed && buffered == 0
    }

    ghost predicate Signalled()
      reads this
    {
      sends == 1 && closes == 1 && closed && buffered <= 1
    }
  }

  class Pool {
    const config: Config
    var activeWorkers: int
    var workerChannels: map<int, StopChan>
    var lastScaleTime: int
    /** The channel of every worker ever launched. */
    ghost var launched: set<StopChan>

    ghost predicate Valid()
      reads this, launched
    {
      && activeWorkers == |workerChannels|
      && workerChannels.Values <= launched && Unshared(workerChannels)
      && (forall i :: i in workerChannels ==> workerChannels[i].id == i && i >= 0)
      && (forall ch :: ch in launched ==> if ch in workerChannels.Values then ch.Unsignalled() else ch.Signalled())
    }

    constructor (config: Config, now: int)
      ensures Valid() && this.config == config && activeWorkers == 0 && launched == {} && lastScaleTime == now
    {
      this.config := config;
      activeWorkers, workerChannels, lastScaleTime, launched := 0, map[], now, {};
    }

    /** The pool counts exactly the workers that have not been told to stop. */
    lemma CountsUnsignalled()
      requires Valid()
      ensures activeWorkers == |set ch | ch in launched && ch.Unsignalled()|
    {
      var live := set ch | ch in launched && ch.Unsignalled();
      assert live == workerChannels.Values;
      ValuesCount(workerChannels);
    }

    /** The scan of scaleUp: above every id in use. */
    method NextId() returns (next: int)
      requires Valid()
      ensures 0 <= next && forall i :: i in workerChannels ==> i < next
    {
      next := 0;
      var rest := workerChannels.Keys;
      while rest != {}
        invariant rest <= workerChannels.Keys && 0 <= next
        invariant forall i :: i in workerChannels && i !in rest ==> i < next
        decreases rest
      {
        ghost var some := Member(rest);
        var id :| id in rest;
        if id >= next { next := id + 1; }
        rest := rest - {id};
      }
    }

    method ScaleUp(targetCount: int, now: int)
      requires Valid() && targetCount > activeWorkers
      modifies this`activeWorkers, this`workerChannels, this`lastScaleTime, this`launched
      ensures Valid() && activeWorkers == targetCount && lastScaleTime == now
      ensures old(workerChannels).Keys <= workerChannels.Keys
      ensures forall i :: i in old(workerChannels) ==> workerChannels[i] == old(workerChannels)[i]
      ensures forall i, j :: i in workerChannels && i !in old(workerChannels) && j in old(workerChannels) ==> j < i
      ensures fresh(launched - old(launched)) && old(launched) <= launched
    {
      var next := NextId();
      for i := activeWorkers to targetCount
        invariant Valid() && activeWorkers == i && next >= 0
        invariant forall k :: k in workerChannels ==> k < next
        invariant old(workerChannels).Keys <= workerChannels.Keys
        invariant forall k :: k in old(workerChannels) ==> workerChannels[k] == old(workerChannels)[k] && k < next
        invariant forall k, j :: k in workerChannels && k !in old(workerChannels) && j in old(workerChannels) ==> j < k
        invariant fresh(launched - old(launched)) && old(launched) <= launched
      {
        AddWorker(next);
        next := next + 1;
      }
      lastScaleTime := now;
    }

    /** Makes a channel and launches its worker. */
    method AddWorker(id: int)
      requires Valid() && id >= 0 && id !in workerChannels
      modifies this`activeWorkers, this`workerChannels, this`launched
      ensures Valid() && activeWorkers == old(activeWorkers) + 1
      ensures id in workerChannels && workerChannels == old(workerChannels)[id := workerChannels[id]]
      ensures fresh(workerChannels[id]) && launched == old(launched) + {workerChannels[id]}
    {
      var stop := new StopChan(id);
      workerChannels := workerChannels[id := stop];
      launched := launched + {stop};
      activeWorkers := activeWorkers + 1;
      ValuesAfterAdd(old(workerChannels), id, stop);
    }

    /** Any `n` of the ids, in whatever order the map yields them. */
    method PickIds(n: nat) returns (ids: set<int>)
      requires n <= |workerChannels|
      ensures |ids| == n && ids <= workerChannels.Keys
    {
      ids := {};
      while |ids| < n
        invariant ids <= workerChannels.Keys && |ids| <= n
      {
        assert ids != workerChannels.Keys;
        ghost var some := Member(workerChannels.Keys - ids);
        var id :| id in workerChannels.Keys - ids;
        ids := ids + {id};
      }
    }

    /** Signals one worker to stop and forgets its channel. */
    method StopWorker(id: int)
      requires Valid() && id in workerChannels
      modifies this`workerChannels, this`activeWorkers, workerChannels[id]
      ensures Valid() && activeWorkers == old(activeWorkers) - 1
      ensures workerChannels == old(workerChannels) - {id}
      ensures old(workerChannels[id]).Signalled()
    {
      var stop := workerChannels[id];
      assert stop in workerChannels.Values;
      stop.Send();
      stop.Close();
      workerChannels := workerChannels - {id};
      activeWorkers := activeWorkers - 1;
      assert workerChannels.Keys == old(workerChannels).Keys - {id};
      ValuesAfterRemove(old(workerChannels), id);
    }

    /** A worker takes its stop signal, at whatever moment between scale calls. */
    method TakeStop(stop: StopChan)
      requires Valid() && stop in launched && stop.buffered > 0
      modifies stop
      ensures Valid() && stop.Signalled() && stop !in workerChannels.Values
    {
      stop.Receive();
    }

    method ScaleDown(targetCount: int, now: int)
      requires Valid() && 0 <= targetCount < activeWorkers
      modifies this`activeWorkers, this`workerChannels, this`lastScaleTime, launched
      ensures Valid() && launched == old(launched)
      ensures old(activeWorkers) <= config.min ==>
                activeWorkers == old(activeWorkers) && workerChannels == old(workerChannels) && lastScaleTime == old(lastScaleTime)
      ensures old(activeWorkers) > config.min ==> activeWorkers == targetCount && lastScaleTime == now
      ensures forall i :: i in workerChannels ==> i in old(workerChannels) && workerChannels[i] == old(workerChannels)[i]
    {
      if activeWorkers <= config.min { return; }
      var ids := PickIds(activeWorkers - targetCount);
      while ids != {}
        invariant Valid() && ids <= workerChannels.Keys && activeWorkers - |ids| == targetCount
        invariant forall i :: i in workerChannels ==> i in old(workerChannels) && workerChannels[i] == old(workerChannels)[i]
        decreases ids
      {
        ghost var some := Member(ids);
        var id :| id in ids;
        assert workerChannels[id] in workerChannels.Values;
        StopWorker(id);
        ids := ids - {id};
      }
      lastScaleTime := now;
    }

    method ScaleWorkers(targetWorkerCount: int, now: int)
      requires Valid()
      requires 0 <= config.min && 0 <= config.max
      modifies this`activeWorkers, this`workerChannels, this`lastScaleTime, this`launched, launched
      ensures Valid() && activeWorkers == NewCount(config, old(activeWorkers), targetWorkerCount)
      ensures lastScaleTime == if activeWorkers == old(activeWorkers) then old(lastScaleTime) else now
      ensures forall i :: i in workerChannels && i in old(workerChannels) ==> workerChannels[i] == old(workerChannels)[i]
      ensures forall i, j :: i in workerChannels && i !in old(workerChannels) && j in old(workerChannels) ==> j < i
      ensures old(launched) <= launched && fresh(launched - old(launched))
    {
      var target := targetWorkerCount;
      if target < config.min { target := config.min; }
      if target > config.max { target := config.max; }
      if target == activeWorkers { return; }
      if target > activeWorkers {
        ScaleUp(target, now);
        return;
      }
      ScaleDown(target, now);
    }

    method EvaluateScaling(queueSize: int, now: int)
      requires Valid() && config.factor > 0.0
      requires 0 <= config.min && 0 <= config.max
      modifies this`activeWorkers, this`workerChannels, this`lastScaleTime, this`launched, launched
      ensures Valid() && activeWorkers == Decide(config, old(activeWorkers), queueSize)
      ensures lastScaleTime == if activeWorkers == old(activeWorkers) then old(lastScaleTime) else now
      ensures old(launched) <= launched && fresh(launched - old(launched))
    {
      hide Needed, Reduced, NewCount;
      var currentWorkers := activeWorkers;
      if queueSize > config.up && currentWorkers < config.max {
        var workersNeeded := WorkersNeeded(currentWorkers, queueSize);
        ScaleWorkers(workersNeeded, now);
        return;
      }
      if queueSize < config.down && currentWorkers > config.min {
        var workersNeeded := WorkersLeft(currentWorkers);
        if workersNeeded < currentWorkers {
          ScaleWorkers(workersNeeded, now);
        }
      }
    }

    method WorkersNeeded(currentWorkers: int, queueSize: int) returns (workersNeeded: int)
      ensures workersNeeded == Needed(config, currentWorkers, queueSize)
    {
      if queueSize > config.up * 5 {
        workersNeeded := config.max;
      } else if queueSize > config.up * 3 {
        workersNeeded := Grown(currentWorkers, config.factor, 1.5);
      } else {
        workersNeeded := Grown(currentWorkers, config.factor, 1.0);
      }
      if workersNeeded > config.max { workersNeeded := config.max; }
      if workersNeeded <= currentWorkers { workersNeeded := currentWorkers + 1; }
    }

    method WorkersLeft(currentWorkers: int) returns (workersNeeded: int)
      requires config.factor > 0.0
      ensures workersNeeded == Reduced(config, currentWorkers)
    {
      workersNeeded := (currentWorkers as real / config.factor).Floor;
      if workersNeeded < config.min { workersNeeded := config.min; }
    }

    /** One tick of the monitor; `queueLen` is None when it could not be read. */
    method MonitorTick(queueLen: Option<nat>, now: int)
      requires Valid() && config.factor > 0.0
      requires 0 <= config.min && 0 <= config.max
      modifies this`activeWorkers, this`workerChannels, this`lastScaleTime, this`launched, launched
      ensures Valid() && old(launched) <= launched && fresh(launched - old(launched))
      ensures queueLen.None? || !config.autoscale ==> activeWorkers == old(activeWorkers)
      ensures queueLen.Some? && now - old(lastScaleTime) <= config.cooldown && queueLen.value <= 5 * config.up ==>
                activeWorkers == old(activeWorkers)
      ensures activeWorkers == old(activeWorkers) || (queueLen.Some? && activeWorkers == Decide(config, old(activeWorkers), queueLen.value))
      ensures activeWorkers < old(activeWorkers) ==> now - old(lastScaleTime) > config.cooldown
      ensures queueLen.Some? && config.autoscale &&
              (now - old(lastScaleTime) > config.cooldown || (queueLen.value > config.up * 5 && old(activeWorkers) < config.max)) ==>
                activeWorkers == Decide(config, old(activeWorkers), queueLen.value)
      ensures lastScaleTime == if activeWorkers == old(activeWorkers) then old(lastScaleTime) else now
    {
      if queueLen.None? { return; }
      var active := activeWorkers;
      if config.autoscale {
        var sinceScale := now - lastScaleTime;
        if sinceScale > config.cooldown {
          EvaluateScaling(queueLen.value, now);
        } else if queueLen.value > config.up * 5 && active < config.max {
          EmergencyGrows(config, active, queueLen.value);
          EvaluateScaling(queueLen.value, now);
        }
      }
    }
  }

  /** The emergency branch never removes workers. */
  lemma EmergencyGrows(c: Config, active: int, queue: nat)
    requires c.factor > 0.0 && active < c.max && queue > c.up * 5
    ensures Decide(c, active, queue) >= active
  {
  }

  /** With sensible bounds every scale call, whatever its target, ends within
      them: so from the first one on the pool stays there. */
  lemma ScaledWithinBounds(c: Config, active: int, target: int)
    requires Sensible(c)
    ensures c.min <= NewCount(c, active, target) <= c.max
    ensures c.min <= target <= c.max ==> NewCount(c, active, target) == target
    ensures target < c.min ==> NewCount(c, active, target) == c.min
    ensures target > c.max ==> NewCount(c, active, target) == c.max
  {
  }
}
