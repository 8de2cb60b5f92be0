/** The inventory reader: its cache, pending fetches and status overrides, changed in place. */
module InventoryReaders {
  import opened Prelude
  import opened ThreadInventory

  class InventoryReader {
    var cache: map<Id, Inventory>
    var pending: map<Id, Id>
    var overrides: Overrides
    var fetches: map<Id, Fetch>
    var next: Id
    ghost var open: set<Id>
    ghost var outdated: set<Id>
    ghost var source: map<Id, Id>

    ghost function Value(): Reader
      reads this
    {
      Reader(cache, pending, overrides, fetches, open, outdated, source, next)
    }

    ghost predicate Valid()
      reads this
    {
      Inv(Value())
    }

    constructor ()
      ensures Value() == EMPTY_READER && Valid()
    {
      cache, pending, overrides, fetches, next := map[], map[], map[], map[], 0;
      open, outdated, source := {}, {}, map[];
    }

    method StartInventoryRead(runtime: Id, mode: Mode) returns (ticket: Id)
      modifies this`fetches, this`pending, this`next, this`open
      ensures Value() == Started(old(Value()), runtime, mode) && ticket == old(next)
    {
      ticket := next;
      fetches := fetches[ticket := Fetch(runtime, mode)];
      pending := pending[runtime := ticket];
      open := open + {ticket};
      next := next + 1;
    }

    method Read(runtime: Id) returns (answer: Answer)
      requires Valid()
      modifies this
      ensures Value() == AfterRead(old(Value()), runtime) && Valid()
      ensures answer == ReadAnswer(old(Value()), runtime)
    {
      ReadKeepsInv(Value(), runtime);
      hide Inv;
      if runtime in cache {
        var view := WithStatusOverrides(if runtime in overrides then overrides[runtime] else map[], cache[runtime]);
        return Cached(view);
      }
      if runtime in pending {
        return Joins(pending[runtime]);
      }
      var ticket := StartInventoryRead(runtime, ReadMode);
      answer := Joins(ticket);
    }

    method Refresh(runtime: Id) returns (answer: Answer)
      requires Valid()
      modifies this
      ensures Value() == AfterRefresh(old(Value()), runtime) && Valid()
      ensures answer == RefreshAnswer(old(Value()), runtime)
    {
      RefreshKeepsInv(Value(), runtime);
      hide Inv;
      ghost var earlier := FetchesOf(Value(), runtime);
      cache := cache - {runtime};
      source := source - {runtime};
      if runtime in pending && pending[runtime] in fetches && fetches[pending[runtime]].mode == RefreshMode {
        outdated := outdated + (earlier - {pending[runtime]});
        return Joins(pending[runtime]);
      }
      outdated := outdated + earlier;
      var ticket := StartInventoryRead(runtime, RefreshMode);
      answer := Joins(ticket);
    }

    method ClearInventory(runtime: Id)
      requires Valid()
      modifies this`cache, this`source, this`pending, this`outdated
      ensures Value() == AfterClear(old(Value()), runtime) && Valid()
    {
      ClearKeepsInv(Value(), runtime);
      outdated := outdated + FetchesOf(Value(), runtime);
      cache := cache - {runtime};
      source := source - {runtime};
      pending := pending - {runtime};
    }

    /** A fetch completes, or fails without a result; only the pending fetch may fill the cache. */
    method EndInventoryRead(ticket: Id, result: Option<Inventory>)
      requires Valid() && ticket in open
      modifies this`cache, this`source, this`pending, this`open
      ensures Value() == AfterEnd(old(Value()), ticket, result) && Valid()
      ensures ticket in outdated ==> cache == old(cache)
    {
      EndKeepsInv(Value(), ticket, result);
      var runtime := fetches[ticket].runtime;
      open := open - {ticket};
      if runtime in pending && pending[runtime] == ticket {
        if result.Some? {
          cache := cache[runtime := result.value];
          source := source[runtime := ticket];
        }
        pending := pending - {runtime};
      }
    }

    method UpdateThreadStatus(runtime: Id, thread: Id, status: Id)
      requires Valid()
      modifies this`overrides
      ensures Value() == WithStatus(old(Value()), runtime, thread, status) && Valid()
    {
      var statuses := if runtime in overrides then overrides[runtime] else map[];
      overrides := overrides[runtime := statuses[thread := status]];
    }

    method ClearThreadStatus(runtime: Id, thread: Id)
      requires Valid()
      modifies this`overrides
      ensures OverridesOf(Value(), runtime) == OverridesOf(old(Value()), runtime) - {thread}
      ensures Value() == old(Value()).(overrides := overrides) && Valid()
    {
      if runtime in overrides {
        var left := overrides[runtime] - {thread};
        overrides := if left == map[] then overrides - {runtime} else overrides[runtime := left];
      }
    }
  }
}
