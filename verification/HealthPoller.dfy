/** Reconciliation of running pollers with the enabled monitors. */
module HealthPoller {
  import opened Options
  import opened Picking

  /** A polling goroutine and the cancel function of its context. */
  class Task {
    const id: string
    var cancelled: bool

    constructor (id: string)
      ensures this.id == id && !cancelled
    {
      this.id, cancelled := id, false;
    }

    method Cancel()
      modifies this
      ensures cancelled
    {
      cancelled := true;
    }
  }

  datatype Monitor = Monitor(id: string)

  function IdsOf(monitors: seq<Monitor>): set<string> {
    set m | m in monitors :: m.id
  }

  class Poller {
    var cancels: map<string, Task>
    /** Every goroutine ever started. */
    ghost var launched: set<Task>

    /** The goroutines still running are exactly those whose cancel is kept. */
    ghost predicate Valid()
      reads this, launched
    {
      && cancels.Values <= launched
      && (forall id :: id in cancels ==> cancels[id].id == id)
      && (forall t :: t in launched ==> (!t.cancelled <==> t in cancels.Values))
    }

    constructor ()
      ensures Valid() && cancels == map[] && launched == {}
    {
      cancels, launched := map[], {};
    }

    /** No monitor is ever polled by two goroutines at once. */
    lemma OnePollerEach(t: Task, u: Task)
      requires Valid() && t in launched && u in launched && !t.cancelled && !u.cancelled && t.id == u.id
      ensures t == u && t.id in cancels
    {
      var a := KeyOf(cancels, t);
      var b := KeyOf(cancels, u);
    }

    method Stop(id: string)
      requires Valid() && id in cancels
      modifies this`cancels, cancels[id]
      ensures Valid() && cancels == old(cancels) - {id}
      ensures old(cancels[id]).cancelled
    {
      var t := cancels[id];
      assert t in cancels.Values;
      assert Unshared(cancels) by {
        forall a, b | a in cancels && b in cancels && a != b ensures cancels[a] != cancels[b] {
          assert cancels[a].id == a && cancels[b].id == b;
        }
      }
      t.Cancel();
      ValuesAfterRemove(cancels, id);
      cancels := cancels - {id};
    }

    method Launch(id: string)
      requires Valid() && id !in cancels
      modifies this`cancels, this`launched
      ensures Valid() && id in cancels && cancels == old(cancels)[id := cancels[id]]
      ensures fresh(cancels[id]) && launched == old(launched) + {cancels[id]}
    {
      var t := new Task(id);
      cancels := cancels[id := t];
      launched := launched + {t};
      ValuesAfterAdd(old(cancels), id, t);
    }

    /** Stops the goroutines of monitors no longer enabled; every other one is
        the object it was. */
    method StopRemoved(active: set<string>)
      requires Valid()
      modifies this`cancels, launched
      ensures Valid() && cancels.Keys == old(cancels).Keys * active && launched == old(launched)
      ensures forall id :: id in cancels ==> cancels[id] == old(cancels)[id]
    {
      var rest := cancels.Keys;
      while rest != {}
        invariant Valid() && rest <= cancels.Keys <= old(cancels).Keys
        invariant forall id :: id in old(cancels) && id in active ==> id in cancels
        invariant forall id :: id in cancels && id !in rest ==> id in active
        invariant forall id :: id in cancels ==> cancels[id] == old(cancels)[id]
        decreases rest
      {
        ghost var some := Member(rest);
        var id :| id in rest;
        rest := rest - {id};
        if id !in active {
          assert cancels[id] in cancels.Values;
          Stop(id);
        }
      }
    }

    method StartNew(monitors: seq<Monitor>)
      requires Valid()
      modifies this`cancels, this`launched
      ensures Valid() && cancels.Keys == old(cancels).Keys + IdsOf(monitors)
      ensures forall id :: id in old(cancels) ==> cancels[id] == old(cancels)[id]
      ensures old(launched) <= launched && fresh(launched - old(launched))
    {
      for i := 0 to |monitors|
        invariant Valid() && cancels.Keys == old(cancels).Keys + IdsOf(monitors[..i])
        invariant forall id :: id in old(cancels) ==> cancels[id] == old(cancels)[id]
        invariant old(launched) <= launched && fresh(launched - old(launched))
      {
        assert monitors[..i + 1] == monitors[..i] + [monitors[i]];
        if monitors[i].id !in cancels {
          Launch(monitors[i].id);
        }
      }
      assert monitors[..|monitors|] == monitors;
    }

    /** `monitors` is the list of enabled monitors, or None when loading it failed. */
    method Reload(monitors: Option<seq<Monitor>>)
      requires Valid()
      modifies this`cancels, this`launched, launched
      ensures Valid() && old(launched) <= launched && fresh(launched - old(launched))
      ensures monitors.None? ==> cancels == old(cancels) && launched == old(launched)
      ensures monitors.Some? ==> cancels.Keys == IdsOf(monitors.value)
      ensures monitors.Some? ==> forall id :: id in cancels <==> exists i :: 0 <= i < |monitors.value| && monitors.value[i].id == id
      ensures forall t :: t in launched ==> (t.cancelled <==> t.id !in cancels || cancels[t.id] != t)
      ensures forall id :: id in cancels && id in old(cancels) ==> cancels[id] == old(cancels)[id]
    {
      if monitors.None? { return; }
      var active: set<string> := {};
      for i := 0 to |monitors.value|
        invariant active == IdsOf(monitors.value[..i])
      {
        assert monitors.value[..i + 1] == monitors.value[..i] + [monitors.value[i]];
        active := active + {monitors.value[i].id};
      }
      assert monitors.value[..|monitors.value|] == monitors.value;
      StopRemoved(active);
      StartNew(monitors.value);
    }
  }
}
