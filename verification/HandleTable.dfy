/** skynet/skynet-src/skynet_handle.c: the growing table of handles and the sorted array of names.  Every
    method is what the source does under its lock. */
module HandleTable {
  import opened HandleMath
  import opened Remainders

  datatype Option<T> = None | Some(value: T)

  type Context = nat
  type Name = seq<nat>

  /** A context in its slot, with its full handle. */
  datatype Entry = Entry(handle: nat, context: Context)
  datatype Named = Named(name: Name, handle: nat)

  /** strcmp: negative, zero or positive. */
  function Compare(a: Name, b: Name): int
  {
    if a == [] then (if b == [] then 0 else -1)
    else if b == [] then 1
    else if a[0] < b[0] then -1
    else if a[0] > b[0] then 1
    else Compare(a[1..], b[1..])
  }

  lemma {:induction false} CompareEqual(a: Name, b: Name)
    ensures Compare(a, b) == 0 <==> a == b
    decreases |a|
  {
    if a != [] && b != [] && a[0] == b[0] {
      CompareEqual(a[1..], b[1..]);
      assert a == [a[0]] + a[1..] && b == [b[0]] + b[1..];
    }
  }

  lemma {:induction false} CompareOpposite(a: Name, b: Name)
    ensures Compare(a, b) < 0 <==> Compare(b, a) > 0
    decreases |a|
  {
    if a != [] && b != [] && a[0] == b[0] { CompareOpposite(a[1..], b[1..]); }
  }

  lemma {:induction false} CompareTransitive(a: Name, b: Name, c: Name)
    requires Compare(a, b) < 0 && Compare(b, c) < 0
    ensures Compare(a, c) < 0
    decreases |a|
  {
    if a != [] && b != [] && c != [] && a[0] == b[0] == c[0] { CompareTransitive(a[1..], b[1..], c[1..]); }
  }

  ghost predicate Sorted(names: seq<Named>)
  {
    forall i, j :: 0 <= i < j < |names| ==> Compare(names[i].name, names[j].name) < 0
  }

  lemma AllBelow(names: seq<Named>, mid: nat, x: Name)
    requires Sorted(names) && mid < |names| && Compare(names[mid].name, x) < 0
    ensures forall k :: 0 <= k <= mid ==> Compare(names[k].name, x) < 0
  {
    hide Compare;
    forall k | 0 <= k < mid ensures Compare(names[k].name, x) < 0 {
      CompareTransitive(names[k].name, names[mid].name, x);
    }
  }

  lemma AllAbove(names: seq<Named>, mid: nat, x: Name)
    requires Sorted(names) && mid < |names| && Compare(names[mid].name, x) > 0
    ensures forall k :: mid <= k < |names| ==> Compare(names[k].name, x) > 0
  {
    hide Compare;
    CompareOpposite(x, names[mid].name);
    forall k | mid < k < |names| ensures Compare(names[k].name, x) > 0 {
      CompareTransitive(x, names[mid].name, names[k].name);
      CompareOpposite(x, names[k].name);
    }
  }

  /** What the name array means. */
  ghost predicate Means(names: seq<Named>, m: map<Name, nat>)
  {
    && (forall i :: 0 <= i < |names| ==> names[i].name in m && m[names[i].name] == names[i].handle)
    && (forall x :: x in m ==> exists i :: 0 <= i < |names| && names[i].name == x)
  }

  /** The names of a retired handle are dropped; the others keep their order. */
  function Without(names: seq<Named>, handle: nat): seq<Named>
  {
    if names == [] then []
    else
      var last := names[|names| - 1];
      if last.handle == handle then Without(names[..|names| - 1], handle)
      else Without(names[..|names| - 1], handle) + [last]
  }

  lemma WithoutNext(names: seq<Named>, i: nat, handle: nat)
    requires i < |names|
    ensures Without(names[..i + 1], handle)
            == Without(names[..i], handle) + if names[i].handle == handle then [] else [names[i]]
  {
    assert names[..i + 1][..i] == names[..i];
  }

  lemma WithoutNone(handle: nat)
    ensures Without([], handle) == []
  {
  }

  lemma Assemble(b: seq<Named>, all: seq<Named>, x: Named, before: nat)
    requires before <= |all| < |b|
    requires b[..before] == all[..before] && b[before] == x && b[before + 1..|all| + 1] == all[before..]
    ensures b[..|all| + 1] == all[..before] + [x] + all[before..]
  {
    assert b[..|all| + 1] == b[..before] + [b[before]] + b[before + 1..|all| + 1];
  }

  lemma {:induction false} WithoutMember(names: seq<Named>, handle: nat, x: Named)
    ensures x in Without(names, handle) <==> x in names && x.handle != handle
    decreases |names|
  {
    if names != [] {
      WithoutMember(names[..|names| - 1], handle, x);
      assert names == names[..|names| - 1] + [names[|names| - 1]];
    }
  }

  lemma {:induction false} WithoutSorted(names: seq<Named>, handle: nat)
    requires Sorted(names)
    ensures Sorted(Without(names, handle)) && |Without(names, handle)| <= |names|
    decreases |names|
  {
    if names != [] {
      var init, last := names[..|names| - 1], names[|names| - 1];
      WithoutSorted(init, handle);
      forall x: Named | x in Without(init, handle) ensures Compare(x.name, last.name) < 0 {
        WithoutMember(init, handle, x);
        var i :| 0 <= i < |init| && init[i] == x;
        assert names[i] == x;
      }
    }
  }

  /** Dropping a handle's names drops exactly those from what the array means. */
  lemma WithoutMeans(names: seq<Named>, m: map<Name, nat>, handle: nat)
    requires Means(names, m)
    ensures Means(Without(names, handle), map x | x in m && m[x] != handle :: m[x])
  {
    var r, m' := Without(names, handle), map x | x in m && m[x] != handle :: m[x];
    forall i | 0 <= i < |r| ensures r[i].name in m' && m'[r[i].name] == r[i].handle {
      WithoutMember(names, handle, r[i]);
    }
    forall x | x in m' ensures exists i :: 0 <= i < |r| && r[i].name == x {
      var i :| 0 <= i < |names| && names[i].name == x;
      WithoutMember(names, handle, names[i]);
    }
  }

  /** When the first i old slots have been rehashed, slot k has gone to one of its two places and the
      other is free; before that, both are. */
  ghost predicate Rehashed(before: seq<Option<Entry>>, after: seq<Option<Entry>>, i: nat, k: nat)
    requires k < |before| && |after| == 2 * |before|
  {
    var n := |before|;
    if k < i && before[k].Some? then
      var h := SlotOf(before[k].value.handle, 2 * n);
      (h == k && after[k] == before[k] && after[k + n].None?) || (h == k + n && after[k + n] == before[k] && after[k].None?)
    else after[k].None? && after[k + n].None?
  }

  ghost predicate RehashedUpTo(before: seq<Option<Entry>>, after: seq<Option<Entry>>, i: nat)
  {
    |after| == 2 * |before| && forall k :: 0 <= k < |before| ==> Rehashed(before, after, i, k)
  }

  lemma NothingRehashed(before: seq<Option<Entry>>, after: seq<Option<Entry>>)
    requires |after| == 2 * |before| && forall k :: 0 <= k < |after| ==> after[k].None?
    ensures RehashedUpTo(before, after, 0)
  {
  }

  lemma RehashStep(before: seq<Option<Entry>>, after: seq<Option<Entry>>, i: nat)
    requires i < |before| && RehashedUpTo(before, after, i)
    requires before[i].Some? ==> SlotOf(before[i].value.handle, |before|) == i
    ensures before[i].None? ==> RehashedUpTo(before, after, i + 1)
    ensures before[i].Some? ==>
              var h := SlotOf(before[i].value.handle, 2 * |before|);
              after[h].None? && RehashedUpTo(before, after[h := before[i]], i + 1)
  {
    hide SlotOf;
    if before[i].Some? { SlotDouble(before[i].value.handle, |before|); }
    var i', r := i + 1, if before[i].Some? then after[SlotOf(before[i].value.handle, 2 * |before|) := before[i]] else after;
    assert Rehashed(before, after, i, i);
    forall k | 0 <= k < |before| ensures Rehashed(before, r, i', k) { assert Rehashed(before, after, i, k); }
  }

  /** A handle is the first one of a round on whose slot no other handle has. */
  ghost predicate FirstFree(slots: seq<Option<Entry>>, first: nat, local: nat)
    requires slots != []
  {
    exists j :: 0 <= j < |slots| && local == Probe(first, j) && TakenBefore(slots, first, local, j)
  }

  ghost predicate TakenBefore(slots: seq<Option<Entry>>, first: nat, local: nat, j: nat)
    requires slots != []
  {
    forall k :: 0 <= k < j ==>
      var hash := SlotOf(Probe(first, k), |slots|); slots[hash].Some? && hash != SlotOf(local, |slots|)
  }

  lemma FirstFreeStays(slots: seq<Option<Entry>>, first: nat, local: nat, e: Entry)
    requires slots != [] && FirstFree(slots, first, local)
    ensures FirstFree(slots[SlotOf(local, |slots|) := Some(e)], first, local)
  {
    hide SlotOf, Probe;
    var j :| 0 <= j < |slots| && local == Probe(first, j) && TakenBefore(slots, first, local, j);
    assert TakenBefore(slots[SlotOf(local, |slots|) := Some(e)], first, local, j);
  }

  class HandleStorage {
    const harbor: nat
    var index: nat
    var slotSize: nat
    var slot: array<Option<Entry>>
    var name: array<Named>
    var nameCount: nat

    /** What the table and the names mean. */
    ghost var table: map<nat, Context>
    ghost var names: map<Name, nat>

    ghost predicate Valid()
      reads this, slot, name
    {
      TableValid() && NamesValid() && (slot as object) != (name as object)
    }

    ghost predicate TableValid()
      reads this`slot, this`slotSize, this`index, this`table, slot
    {
      && Slots(slotSize) && slot.Length == slotSize
      && 1 <= index <= HANDLES
      && (forall i :: 0 <= i < slotSize && slot[i].Some? ==> Holds(slot[i].value.handle, slot[i].value.context) && SlotOf(slot[i].value.handle, slotSize) == i)
      && (forall h :: h in table ==> slot[SlotOf(h, slotSize)] == Some(Entry(h, table[h])))
    }

    /** Handle h, with the harbor's bits and a local part that is not zero, belongs to context c. */
    ghost predicate Holds(h: nat, c: Context)
      reads this`table
    {
      h in table && table[h] == c && harbor * HANDLES < h < harbor * HANDLES + HANDLES
    }

    ghost predicate NamesValid()
      reads this`name, this`nameCount, this`names, name
    {
      nameCount <= name.Length && 2 <= name.Length && Sorted(name[..nameCount]) && Means(name[..nameCount], names)
    }

    constructor (harborId: nat)
      ensures Valid() && table == map[] && names == map[] && fresh(slot) && fresh(name) && harbor == harborId
      ensures slotSize == 4 && nameCount == 0 && index == 1
    {
      assert Power2(2) == 4;
      harbor, index, slotSize, nameCount := harborId, 1, 4, 0;
      slot := new Option<Entry>[4](_ => None);
      name := new Named[2](_ => Named([], 0));
      table, names := map[], map[];
    }

    /** A round of the search meets a free slot. */
    ghost predicate FreeTried()
      requires TableValid()
      reads this, slot
    {
      SlotsBound();
      exists j :: 0 <= j < slotSize && slot[SlotOf(Probe(index, j), slotSize)].None?
    }

    /** When some slot is free, a registration doubles the table if and only if slot zero is the only free
        one and the round leaves it out. */
    lemma DoublesExactly()
      requires TableValid() && exists k :: 0 <= k < slotSize && slot[k].None?
      ensures !FreeTried() <==> LeavesOutZero(index, slotSize) && forall k :: 0 < k < slotSize ==> slot[k].Some?
    {
      hide SlotOf, Power2, Probe, LeavesOutZero, Slots;
      SlotsBound();
      ZeroTried(index, slotSize);
      forall k | 0 < k < slotSize ensures Tried(index, slotSize, k) { OthersTried(index, slotSize, k); }
      if !FreeTried() {
        forall k | 0 <= k < slotSize && Tried(index, slotSize, k) ensures slot[k].Some? {
          var i :| 0 <= i < slotSize && SlotOf(Probe(index, i), slotSize) == k;
          assert slot[SlotOf(Probe(index, i), slotSize)].Some?;
        }
      } else {
        var j :| 0 <= j < slotSize && slot[SlotOf(Probe(index, j), slotSize)].None?;
        assert Tried(index, slotSize, SlotOf(Probe(index, j), slotSize));
      }
    }

    /** skynet_handle_register.  The source aborts when it would have to double a table of 2^24 slots. */
    method Register(context: Context) returns (handle: nat)
      requires Valid() && (slotSize < HANDLES || FreeTried())
      modifies this`index, this`slotSize, this`slot, this`table, slot
      ensures Valid() && names == old(names)
      ensures handle !in old(table) && table == old(table)[handle := context] && Holds(handle, context)
      ensures slotSize == if old(FreeTried()) then old(slotSize) else 2 * old(slotSize)
      ensures handle == index - 1 + harbor * HANDLES && FirstFree(slot[..], old(index), index - 1)
      ensures if old(FreeTried()) then slot == old(slot) else fresh(slot)
    {
      hide SlotOf, Slots, Power2, NamesValid, Probe, FirstFree;
      var doubled := false;
      while true
        invariant Valid() && table == old(table) && names == old(names) && index == old(index)
        invariant slotSize == if doubled then 2 * old(slotSize) else old(slotSize)
        invariant doubled ==> HalfFree() && !old(FreeTried())
        invariant !doubled ==> FreeTried() == old(FreeTried())
        invariant if doubled then fresh(slot) else slot == old(slot)
        decreases !doubled
      {
        var found, local := FindFree();
        if found {
          ghost var slots := slot[..];
          handle := Occupy(local, context);
          FirstFreeStays(slots, old(index), local, Entry(handle, context));
          return;
        }
        if doubled {
          SomeFree();
          assert false;
        }
        SlotsDouble(slotSize);
        Double();
        doubled := true;
      }
    }

    /** One round of the search: as many handles as there are slots, from the last one given on. */
    method FindFree() returns (found: bool, local: nat)
      requires TableValid()
      ensures found ==> 1 <= local <= HANDLE_MASK && slot[SlotOf(local, slotSize)].None?
      ensures found == FreeTried() && (found ==> FirstFree(slot[..], index, local))
      ensures !found ==> forall j :: 0 <= j < slotSize ==> slot[SlotOf(Probe(index, j), slotSize)].Some?
    {
      hide SlotOf, Slots, Power2, Probe;
      SlotsBound();
      local := index;
      var i := 0;
      while i < slotSize
        invariant i <= slotSize
        invariant local == if i == 0 then index else Probe(index, i - 1) + 1
        invariant forall j :: 0 <= j < i ==> slot[SlotOf(Probe(index, j), slotSize)].Some?
      {
        ProbeNext(index, i);
        if local > HANDLE_MASK { local := 1; }
        if slot[SlotOf(local, slotSize)].None? {
          assert TakenBefore(slot[..], index, local, i);
          return true, local;
        }
        local := local + 1;
        i := i + 1;
      }
      return false, 0;
    }

    lemma SlotsBound()
      requires TableValid()
      ensures 4 <= slotSize <= HANDLES && slot.Length == slotSize
    {
    }

    /** Of two slots half a table apart, at most one is taken. */
    ghost predicate HalfFree()
      reads this, slot
    {
      slot.Length == slotSize && slotSize % 2 == 0
      && forall i :: 0 <= i < slotSize / 2 ==> !(slot[i].Some? && slot[i + slotSize / 2].Some?)
    }

    /** A search of a table that has just been doubled succeeds. */
    lemma SomeFree()
      requires TableValid() && HalfFree()
      ensures exists j :: 0 <= j < slotSize && slot[SlotOf(Probe(index, j), slotSize)].None?
    {
      hide SlotOf, Power2, Probe;
      var a, b := ProbesOpposite(index, slotSize / 2);
      var x, y := SlotOf(Probe(index, a), slotSize), SlotOf(Probe(index, b), slotSize);
      assert !(slot[x].Some? && slot[x + slotSize / 2].Some?);
      assert slot[x].None? || slot[y].None?;
    }

    /** The context goes into the free slot of the handle. */
    method Occupy(local: nat, context: Context) returns (handle: nat)
      requires Valid() && 1 <= local <= HANDLE_MASK && slot[SlotOf(local, slotSize)].None?
      modifies this`index, this`table, slot
      ensures index == local + 1 && handle == local + harbor * HANDLES
      ensures slot[..] == old(slot[..])[SlotOf(local, slotSize) := Some(Entry(handle, context))]
      ensures Valid() && handle !in old(table) && table == old(table)[handle := context] && Holds(handle, context)
    {
      HarborSlot(local, harbor, slotSize);
      handle := local + harbor * HANDLES;
      slot[SlotOf(local, slotSize)] := Some(Entry(handle, context));
      index := local + 1;
      table := table[handle := context];
    }

    /** The table is rehashed into twice as many slots; no two entries meet. */
    method Double()
      requires Valid() && slotSize < HANDLES && Slots(2 * slotSize)
      modifies this`slotSize, this`slot
      ensures Valid() && HalfFree() && slotSize == 2 * old(slotSize) && fresh(slot)
    {
      hide SlotOf, Slots, Power2, NamesValid, Rehashed;
      var n := slotSize;
      var newSlot := new Option<Entry>[2 * n](_ => None);
      var i := 0;
      NothingRehashed(slot[..], newSlot[..]);
      while i < n
        invariant i <= n && unchanged(this) && unchanged(slot)
        invariant RehashedUpTo(slot[..], newSlot[..], i)
      {
        RehashStep(slot[..], newSlot[..], i);
        if slot[i].Some? {
          var hash := SlotOf(slot[i].value.handle, 2 * n);
          assert newSlot[hash].None?;
          ghost var after := newSlot[..];
          newSlot[hash] := slot[i];
          assert newSlot[..] == after[hash := slot[i]];
        }
        i := i + 1;
      }
      RehashedTable(slot[..], newSlot[..], n);
      slot := newSlot;
      slotSize := 2 * n;
    }

    /** What the rehashed table holds is what the old one held. */
    lemma RehashedTable(before: seq<Option<Entry>>, after: seq<Option<Entry>>, n: nat)
      requires TableValid() && before == slot[..] && n == slotSize && |after| == 2 * n
      requires RehashedUpTo(before, after, n)
      ensures forall i :: 0 <= i < 2 * n && after[i].Some? ==>
                Holds(after[i].value.handle, after[i].value.context) && SlotOf(after[i].value.handle, 2 * n) == i
      ensures forall h :: h in table ==> after[SlotOf(h, 2 * n)] == Some(Entry(h, table[h]))
      ensures forall i :: 0 <= i < n ==> !(after[i].Some? && after[i + n].Some?)
    {
      hide SlotOf, Slots, Power2;
      forall i | 0 <= i < 2 * n && after[i].Some?
        ensures Holds(after[i].value.handle, after[i].value.context) && SlotOf(after[i].value.handle, 2 * n) == i
      {
        assert Rehashed(before, after, n, if i < n then i else i - n);
      }
      forall h | h in table ensures after[SlotOf(h, 2 * n)] == Some(Entry(h, table[h])) {
        SlotDouble(h, n);
        assert Rehashed(before, after, n, SlotOf(h, n));
      }
      forall i | 0 <= i < n ensures !(after[i].Some? && after[i + n].Some?) { assert Rehashed(before, after, n, i); }
    }

    /** skynet_handle_grab: the context registered under exactly this handle. */
    method Grab(handle: nat) returns (context: Option<Context>)
      requires Valid()
      ensures context == if handle in table then Some(table[handle]) else None
    {
      var hash := SlotOf(handle, slotSize);
      context := if slot[hash].Some? && slot[hash].value.handle == handle then Some(slot[hash].value.context) else None;
    }

    /** skynet_handle_retire: the context is given back to be released, and its names are dropped. */
    method Retire(handle: nat) returns (context: Option<Context>)
      requires Valid()
      modifies this`table, this`nameCount, this`names, slot, name
      ensures Valid() && context == if handle in old(table) then Some(old(table)[handle]) else None
      ensures table == old(table) - {handle}
      ensures names == if handle in old(table) then map x | x in old(names) && old(names)[x] != handle :: old(names)[x] else old(names)
    {
      context := None;
      var hash := SlotOf(handle, slotSize);
      if slot[hash].Some? && slot[hash].value.handle == handle {
        context := Some(slot[hash].value.context);
        slot[hash] := None;
        table := table - {handle};
        DropNames(handle);
      }
    }

    method DropNames(handle: nat)
      requires NamesValid() && TableValid() && (slot as object) != (name as object)
      modifies this`nameCount, this`names, name
      ensures NamesValid() && TableValid() && names == map x | x in old(names) && old(names)[x] != handle :: old(names)[x]
    {
      hide Sorted, Means, SlotOf, Slots, TableValid, Without;
      ghost var before := name[..nameCount];
      var i, j, n := 0, 0, nameCount;
      WithoutNone(handle);
      assert before[..0] == [] && name[..0] == [];
      while i < n
        invariant j <= i <= n == nameCount && nameCount <= name.Length
        invariant names == old(names) && unchanged(this)
        invariant name[..j] == Without(before[..i], handle)
        invariant forall k :: i <= k < n ==> name[k] == before[k]
      {
        WithoutNext(before, i, handle);
        if name[i].handle != handle {
          if i != j { name[j] := name[i]; }
          assert name[..j + 1] == name[..j] + [before[i]];
          j := j + 1;
        }
        i := i + 1;
      }
      assert before[..n] == before;
      WithoutSorted(before, handle);
      WithoutMeans(before, names, handle);
      nameCount := j;
      names := map x | x in names && names[x] != handle :: names[x];
    }

    /** The binary search that findname and insert_name share: where the name is, or would be. */
    method Search(x: Name) returns (found: bool, at: nat)
      requires NamesValid()
      ensures found <==> x in names
      ensures found ==> at < nameCount && name[at].name == x
      ensures !found ==> at <= nameCount
                         && (forall k :: 0 <= k < at ==> Compare(name[k].name, x) < 0)
                         && (forall k :: at <= k < nameCount ==> Compare(name[k].name, x) > 0)
    {
      hide Compare, Sorted;
      ghost var all := name[..nameCount];
      var begin, end := 0, nameCount as int - 1;
      while begin <= end
        invariant 0 <= begin <= end + 1 <= nameCount
        invariant forall k :: 0 <= k < begin ==> Compare(all[k].name, x) < 0
        invariant forall k :: end < k < nameCount ==> Compare(all[k].name, x) > 0
      {
        var mid := (begin + end) / 2;
        assert name[mid] == all[mid];
        var c := Compare(name[mid].name, x);
        CompareEqual(name[mid].name, x);
        if c == 0 { return true, mid; }
        if c < 0 {
          AllBelow(all, mid, x);
          begin := mid + 1;
        } else {
          AllAbove(all, mid, x);
          end := mid - 1;
        }
      }
      if x in names {
        var i :| 0 <= i < nameCount && all[i].name == x;
        CompareEqual(all[i].name, x);
      }
      return false, begin;
    }

    /** skynet_handle_findname: zero when there is no such name. */
    method FindName(x: Name) returns (handle: nat)
      requires Valid()
      ensures handle == if x in names then names[x] else 0
    {
      var found, at := Search(x);
      assert found ==> name[..nameCount][at] == name[at];
      handle := if found then name[at].handle else 0;
    }

    /** skynet_handle_namehandle: a name is given once, until its handle is retired. */
    method NameHandle(handle: nat, x: Name) returns (given: bool)
      requires Valid()
      modifies this`name, this`nameCount, this`names, name
      ensures Valid() && given == (x !in old(names))
      ensures names == if given then old(names)[x := handle] else old(names)
    {
      var found, at := Search(x);
      if !found {
        InsertNameBefore(x, handle, at);
      }
      given := !found;
    }

    /** insert_name_before: make room at a position, in place or in an array of twice the size. */
    method InsertNameBefore(x: Name, handle: nat, before: nat)
      requires Valid() && before <= nameCount && x !in names
      requires forall k :: 0 <= k < before ==> Compare(name[k].name, x) < 0
      requires forall k :: before <= k < nameCount ==> Compare(name[k].name, x) > 0
      modifies this`name, this`nameCount, this`names, name
      ensures Valid() && names == old(names)[x := handle]
    {
      hide Sorted, Means, Compare, SlotOf, Slots, TableValid;
      ghost var all := name[..nameCount];
      MakeRoom(before);
      name[before] := Named(x, handle);
      nameCount := nameCount + 1;
      names := names[x := handle];
      Assemble(name[..], all, Named(x, handle), before);
      assert name[..][..nameCount] == name[..nameCount];
      InsertedSorted(all, x, handle, before);
      InsertedMeans(all, old(names), x, handle, before);
    }

    method MakeRoom(before: nat)
      requires before <= nameCount <= name.Length && 2 <= name.Length
      modifies this`name, name
      ensures nameCount < name.Length && 2 <= name.Length && (name == old(name) || fresh(name))
      ensures name[..before] == old(name[..before]) && name[before + 1..nameCount + 1] == old(name[before..nameCount])
    {
      if nameCount >= name.Length {
        name := GrowAround(before);
      } else {
        ShiftFrom(before);
      }
    }

    /** A copy of twice the size, with a gap at a position. */
    method GrowAround(before: nat) returns (n: array<Named>)
      requires 2 <= name.Length && before <= nameCount <= name.Length
      ensures fresh(n) && n.Length == 2 * name.Length
      ensures n[..before] == name[..before] && n[before + 1..nameCount + 1] == name[before..nameCount]
    {
      n := new Named[name.Length * 2](_ => Named([], 0));
      var i := 0;
      while i < before
        invariant i <= before && n[..i] == name[..i]
      {
        n[i] := name[i];
        i := i + 1;
      }
      while i < nameCount
        invariant before <= i <= nameCount
        invariant n[..before] == name[..before] && n[before + 1..i + 1] == name[before..i]
      {
        n[i + 1] := name[i];
        assert n[before + 1..i + 2] == n[before + 1..i + 1] + [name[i]];
        i := i + 1;
      }
    }

    /** The names from a position on move up by one. */
    method ShiftFrom(before: nat)
      requires before <= nameCount < name.Length
      modifies name
      ensures name[..before] == old(name[..before]) && name[before + 1..nameCount + 1] == old(name[before..nameCount])
    {
      ghost var all := name[..nameCount];
      var i := nameCount;
      while i > before
        invariant before <= i <= nameCount
        invariant name[..i] == all[..i] && name[i + 1..nameCount + 1] == all[i..]
      {
        name[i] := name[i - 1];
        assert name[i..nameCount + 1] == [all[i - 1]] + name[i + 1..nameCount + 1];
        i := i - 1;
      }
    }
  }

  /** Inserting a new name where it belongs keeps the array sorted. */
  lemma InsertedSorted(all: seq<Named>, x: Name, handle: nat, before: nat)
    requires Sorted(all) && before <= |all|
    requires forall k :: 0 <= k < before ==> Compare(all[k].name, x) < 0
    requires forall k :: before <= k < |all| ==> Compare(all[k].name, x) > 0
    ensures Sorted(all[..before] + [Named(x, handle)] + all[before..])
  {
    hide Compare;
    var r := all[..before] + [Named(x, handle)] + all[before..];
    forall i, j | 0 <= i < j < |r| ensures Compare(r[i].name, r[j].name) < 0 {
      if i == before {
        assert r[j] == all[j - 1];
        CompareOpposite(x, all[j - 1].name);
      } else if j == before {
        assert r[i] == all[i];
      } else {
        assert r[i] == all[if i < before then i else i - 1] && r[j] == all[if j < before then j else j - 1];
      }
    }
  }

  /** It adds the name to what the array means. */
  lemma InsertedMeans(all: seq<Named>, m: map<Name, nat>, x: Name, handle: nat, before: nat)
    requires Means(all, m) && before <= |all| && x !in m
    ensures Means(all[..before] + [Named(x, handle)] + all[before..], m[x := handle])
  {
    var r, m' := all[..before] + [Named(x, handle)] + all[before..], m[x := handle];
    forall i | 0 <= i < |r| ensures r[i].name in m' && m'[r[i].name] == r[i].handle {
      if i != before { assert r[i] == all[if i < before then i else i - 1]; }
    }
    forall y: Name | y in m' ensures exists i :: 0 <= i < |r| && r[i].name == y {
      if y == x {
        assert r[before].name == y;
      } else {
        var i :| 0 <= i < |all| && all[i].name == y;
        assert r[if i < before then i else i + 1] == all[i];
      }
    }
  }

  /** A name array means one thing: looking a name up in it is looking it up in the map. */
  lemma MeaningUnique(names: seq<Named>, m: map<Name, nat>, m': map<Name, nat>)
    requires Means(names, m) && Means(names, m')
    ensures m == m'
  {
    forall x | x in m ensures x in m' && m'[x] == m[x] { var i :| 0 <= i < |names| && names[i].name == x; }
    forall x | x in m' ensures x in m { var i :| 0 <= i < |names| && names[i].name == x; }
  }

  /** The next handle, when no other one is in its slot. */
  method RegisterNext(st: HandleStorage, context: Context) returns (handle: nat)
    requires st.Valid() && st.slotSize == 4 && st.harbor == 0 && st.index <= HANDLE_MASK
    requires forall h :: h in st.table ==> SlotOf(h, 4) != SlotOf(st.index, 4)
    modifies st`index, st`slotSize, st`slot, st`table, st.slot
    ensures st.Valid() && st.slotSize == 4 && handle == old(st.index) && st.index == handle + 1
    ensures st.table == old(st.table)[handle := context] && st.slot == old(st.slot)
  {
    hide SlotOf, HandleStorage.NamesValid;
    ghost var first := st.index;
    assert Probe(first, 0) == first;
    assert st.slot[SlotOf(Probe(first, 0), 4)].None?;
    handle := st.Register(context);
    ghost var slots := st.slot[..];
    ghost var j :| 0 <= j < 4 && handle == Probe(first, j) && TakenBefore(slots, first, handle, j);
    if j > 0 { assert false; }
  }

  /** Handles are given and given back until five are left before the last one. */
  method NearTheEnd(a: Context) returns (st: HandleStorage)
    ensures fresh(st) && fresh(st.slot) && fresh(st.name) && st.Valid() && st.harbor == 0 && st.slotSize == 4
    ensures st.table == map[] && st.index == HANDLE_MASK - 5
  {
    hide HandleStorage.Valid;
    st := new HandleStorage(0);
    while st.index < HANDLE_MASK - 5
      invariant fresh(st) && fresh(st.slot) && fresh(st.name) && st.Valid() && st.harbor == 0 && st.slotSize == 4
      invariant st.table == map[] && st.index <= HANDLE_MASK - 5
      decreases HANDLE_MASK - st.index
    {
      var h := RegisterNext(st, a);
      var _ := st.Retire(h);
    }
  }

  /** A table of four slots whose slot zero is free, and which a registration doubles nevertheless: almost all
      handles have been given and given back, and three of the last ones are in use. */
  method SparseTable(a: Context, b: Context, c: Context) returns (st: HandleStorage)
    ensures fresh(st) && st.Valid() && st.slotSize == 4 && st.slot[0].None? && !st.FreeTried()
  {
    hide HandleStorage.Valid, HandleStorage.FreeTried, SlotOf;
    LastSlots();
    st := NearTheEnd(a);
    var h := RegisterNext(st, a);
    h := RegisterNext(st, b);
    h := RegisterNext(st, c);
    var _ := st.Retire(h);
    h := RegisterNext(st, c);
    AllButZero(st);
  }

  lemma LastSlots()
    ensures SlotOf(HANDLE_MASK - 5, 4) == 2 && SlotOf(HANDLE_MASK - 4, 4) == 3
    ensures SlotOf(HANDLE_MASK - 3, 4) == 0 && SlotOf(HANDLE_MASK - 2, 4) == 1
  {
  }

  lemma AllButZero(st: HandleStorage)
    requires st.Valid() && st.slotSize == 4 && st.harbor == 0 && st.index == HANDLE_MASK - 1
    requires st.table.Keys == {HANDLE_MASK - 5, HANDLE_MASK - 4, HANDLE_MASK - 2}
    ensures st.slot[0].None? && !st.FreeTried()
  {
    hide SlotOf, HandleStorage.FreeTried;
    LastSlots();
    assert HANDLE_MASK - 5 in st.table && HANDLE_MASK - 4 in st.table && HANDLE_MASK - 2 in st.table;
    assert st.slot[0].None?;
    st.DoublesExactly();
  }
}
