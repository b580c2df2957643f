/** The control-plane loops over all slots, run while other processes keep changing
    the slots underneath them.

    Between any two atomic accesses the table lets an arbitrary number of pending
    changes happen. Each is a lock-free change: SlotTheorems.OthersAreLockFree
    shows that no step outside the control lock does anything else to inner_ip or
    to a device index. The list of pending changes is finite but arbitrary. */
module SlotTable {
  import opened Wire
  import opened SlotMachine

  /** Another process sets inner_ip of a slot, if that is a lock-free change. */
  datatype Change = Change(slot: nat, ip: nat)

  function Applied(inner: seq<nat>, c: Change): (r: seq<nat>)
    ensures |r| == |inner|
  {
    if c.slot < |inner| && LockFreeChange(inner[c.slot], c.ip) then inner[c.slot := c.ip] else inner
  }

  datatype Device = Device(slot: nat, ifindex: nat)

  /** What a slot records. */
  datatype View = View(ip: nat, ifindex: nat, tap: bool)

  /** What the kernel answers while one slot is provisioned: the device it made or found,
      and whether each map operation worked. */
  datatype Kernel = Kernel(device: Option<nat>, drops: bool, inserts: bool, dropsOld: bool)

  /** The kernel removes the link (or had none), the map removes the entry (or had none). */
  predicate CanDelete(linkOk: nat -> bool, mapOk: nat -> bool, f: nat) {
    linkOk(f) && mapOk(f)
  }

  /** Each slot changed lock-free. */
  predicate Interfered(before: seq<nat>, after: seq<nat>) {
    |after| == |before| && forall i :: 0 <= i < |before| ==> LockFreeChange(before[i], after[i])
  }

  /** At some moment from position `since` of the history on, the slot was not Free. */
  ghost predicate WasBusy(history: seq<seq<nat>>, since: nat, i: nat) {
    exists t :: since <= t < |history| && i < |history[t]| && history[t][i] != FREE
  }

  ghost predicate AllWereBusy(history: seq<seq<nat>>, since: nat, n: nat) {
    forall i :: 0 <= i < n ==> WasBusy(history, since, i)
  }

  /** At some moment from position `since` of the history on, the slot was Allocated. */
  ghost predicate WasAllocated(history: seq<seq<nat>>, since: nat, i: nat) {
    exists t :: since <= t < |history| && i < |history[t]| && IsAllocated(history[t][i])
  }

  ghost predicate WasUnallocated(history: seq<seq<nat>>, since: nat, i: nat) {
    exists t :: since <= t < |history| && i < |history[t]| && !IsAllocated(history[t][i])
  }

  ghost predicate SomeAllocated(history: seq<seq<nat>>, since: nat, n: nat) {
    exists i :: 0 <= i < n && WasAllocated(history, since, i)
  }

  ghost predicate AllUnallocated(history: seq<seq<nat>>, since: nat, n: nat) {
    forall i :: 0 <= i < n ==> WasUnallocated(history, since, i)
  }

  /** The slot is Reserved now, or an attachment held it meanwhile. */
  ghost predicate SettledAt(history: seq<seq<nat>>, since: nat, inner: seq<nat>, i: nat)
    requires i < |inner|
  {
    inner[i] == RESERVED || WasAllocated(history, since, i)
  }

  ghost predicate Settled(history: seq<seq<nat>>, since: nat, inner: seq<nat>, n: nat) {
    n <= |inner| && forall i :: 0 <= i < n ==> SettledAt(history, since, inner, i)
  }

  predicate ReservedStays(before: seq<nat>, after: seq<nat>) {
    |after| == |before| && forall i :: 0 <= i < |before| && before[i] == RESERVED ==> after[i] == RESERVED
  }

  lemma SettledStays(h: seq<seq<nat>>, h': seq<seq<nat>>, since: nat, inner: seq<nat>, inner': seq<nat>, n: nat)
    requires Settled(h, since, inner, n) && h <= h' && ReservedStays(inner, inner')
    ensures Settled(h', since, inner', n)
  {
    forall i | 0 <= i < n ensures SettledAt(h', since, inner', i) {
      assert SettledAt(h, since, inner, i);
      if WasAllocated(h, since, i) {
        var t :| since <= t < |h| && i < |h[t]| && IsAllocated(h[t][i]);
        assert h'[t] == h[t];
      }
    }
  }

  lemma SettledNow(h: seq<seq<nat>>, since: nat, inner: seq<nat>, n: nat)
    requires Settled(h, since, inner, n) && n < |inner| && since < |h| && h[|h| - 1] == inner && inner[n] != FREE
    ensures Settled(h, since, inner, n + 1)
  {
    if IsAllocated(inner[n]) {
      assert IsAllocated(h[|h| - 1][n]);
    }
    assert SettledAt(h, since, inner, n);
  }

  lemma BusyStays(h: seq<seq<nat>>, h': seq<seq<nat>>, since: nat, n: nat)
    requires AllWereBusy(h, since, n) && h <= h'
    ensures AllWereBusy(h', since, n)
  {
    forall i | 0 <= i < n ensures WasBusy(h', since, i) {
      assert WasBusy(h, since, i);
      var t :| since <= t < |h| && i < |h[t]| && h[t][i] != FREE;
      assert h'[t] == h[t];
    }
  }

  lemma BusyNow(h: seq<seq<nat>>, since: nat, n: nat)
    requires AllWereBusy(h, since, n) && since < |h| && n < |h[|h| - 1]| && h[|h| - 1][n] != FREE
    ensures AllWereBusy(h, since, n + 1)
  {
    assert WasBusy(h, since, n);
  }

  lemma SeenStays(h: seq<seq<nat>>, h': seq<seq<nat>>, since: nat)
    requires h <= h'
    ensures forall i: nat :: WasAllocated(h, since, i) ==> WasAllocated(h', since, i)
    ensures forall i: nat :: WasUnallocated(h, since, i) ==> WasUnallocated(h', since, i)
  {
    forall i: nat | WasAllocated(h, since, i) ensures WasAllocated(h', since, i) {
      var t :| since <= t < |h| && i < |h[t]| && IsAllocated(h[t][i]);
      assert h'[t] == h[t];
    }
    forall i: nat | WasUnallocated(h, since, i) ensures WasUnallocated(h', since, i) {
      var t :| since <= t < |h| && i < |h[t]| && !IsAllocated(h[t][i]);
      assert h'[t] == h[t];
    }
  }

  lemma SettledSooner(h: seq<seq<nat>>, since: nat, later: nat, inner: seq<nat>, n: nat)
    requires Settled(h, later, inner, n) && since <= later
    ensures Settled(h, since, inner, n)
  {
    forall i | 0 <= i < n ensures SettledAt(h, since, inner, i) {
      assert SettledAt(h, later, inner, i);
    }
  }

  /** The values of the table at one moment and the next: every slot changed lock-free. */
  ghost predicate QuietAt(h: seq<seq<nat>>, t: nat)
    requires t + 1 < |h|
  {
    Interfered(h[t], h[t + 1])
  }

  /** Every slot changed lock-free, or was taken while it was Free. */
  ghost predicate PoliteAt(h: seq<seq<nat>>, t: nat)
    requires t + 1 < |h|
  {
    && |h[t + 1]| == |h[t]|
    && forall i :: 0 <= i < |h[t]| ==> LockFreeChange(h[t][i], h[t + 1][i]) || (h[t][i] == FREE && h[t + 1][i] == RESERVED)
  }

  /** From position `since` on nothing but other processes changed the table. */
  ghost predicate Quiet(h: seq<seq<nat>>, since: nat) {
    forall t :: since <= t < |h| - 1 ==> QuietAt(h, t)
  }

  /** From position `since` on no attachment was taken over. */
  ghost predicate Polite(h: seq<seq<nat>>, since: nat) {
    forall t :: since <= t < |h| - 1 ==> PoliteAt(h, t)
  }

  lemma QuietIsPolite(h: seq<seq<nat>>, since: nat)
    requires Quiet(h, since)
    ensures Polite(h, since)
  {
    forall t | since <= t < |h| - 1 ensures PoliteAt(h, t) {
      assert QuietAt(h, t);
    }
  }

  lemma QuietMore(h: seq<seq<nat>>, h': seq<seq<nat>>, since: nat)
    requires 0 < |h| && h <= h' && Quiet(h, since) && Quiet(h', |h| - 1)
    ensures Quiet(h', since)
  {
    forall t | since <= t < |h'| - 1 ensures QuietAt(h', t) {
      if t < |h| - 1 {
        assert QuietAt(h, t) && h'[t] == h[t] && h'[t + 1] == h[t + 1];
      }
    }
  }

  lemma PoliteMore(h: seq<seq<nat>>, h': seq<seq<nat>>, since: nat)
    requires 0 < |h| && h <= h' && Polite(h, since) && Polite(h', |h| - 1)
    ensures Polite(h', since)
  {
    forall t | since <= t < |h'| - 1 ensures PoliteAt(h', t) {
      if t < |h| - 1 {
        assert PoliteAt(h, t) && h'[t] == h[t] && h'[t + 1] == h[t + 1];
      }
    }
  }

  /** One more value: the table with a Free slot taken. */
  lemma PoliteTake(h: seq<seq<nat>>, since: nat, i: nat)
    requires 0 < |h| && Quiet(h, since) && i < |h[|h| - 1]| && h[|h| - 1][i] == FREE
    ensures Polite(h + [h[|h| - 1][i := RESERVED]], since)
  {
    var h' := h + [h[|h| - 1][i := RESERVED]];
    forall t | since <= t < |h'| - 1 ensures PoliteAt(h', t) {
      if t < |h| - 1 {
        assert QuietAt(h, t) && h'[t] == h[t] && h'[t + 1] == h[t + 1];
      }
    }
  }

  lemma QuietAppend(h: seq<seq<nat>>, since: nat, next: seq<nat>)
    requires 0 < |h| && Quiet(h, since) && Interfered(h[|h| - 1], next)
    ensures Quiet(h + [next], since)
  {
    var h' := h + [next];
    forall t | since <= t < |h'| - 1 ensures QuietAt(h', t) {
      if t < |h| - 1 {
        assert QuietAt(h, t) && h'[t] == h[t] && h'[t + 1] == h[t + 1];
      }
    }
  }

  /** How many of these values are attachments. */
  function Allocations(seen: seq<nat>): nat {
    if seen == [] then 0 else Allocations(seen[..|seen| - 1]) + if IsAllocated(seen[|seen| - 1]) then 1 else 0
  }

  /** Each of these values was in its slot at some moment from position `since` on. */
  ghost predicate WereThere(h: seq<seq<nat>>, since: nat, seen: seq<nat>) {
    forall i :: 0 <= i < |seen| ==> WasThere(h, since, i, seen[i])
  }

  ghost predicate WasThere(h: seq<seq<nat>>, since: nat, i: nat, v: nat) {
    exists t :: since <= t < |h| && i < |h[t]| && h[t][i] == v
  }

  lemma {:induction false} CountWitness(h: seq<seq<nat>>, since: nat, seen: seq<nat>)
    requires WereThere(h, since, seen)
    ensures Allocations(seen) > 0 ==> SomeAllocated(h, since, |seen|)
    ensures Allocations(seen) == 0 ==> AllUnallocated(h, since, |seen|)
  {
    if seen != [] {
      var n := |seen| - 1;
      var front := seen[..n];
      forall i | 0 <= i < n ensures WasThere(h, since, i, front[i]) {
        assert WasThere(h, since, i, seen[i]);
      }
      CountWitness(h, since, front);
      assert WasThere(h, since, n, seen[n]);
      if IsAllocated(seen[n]) {
        assert WasAllocated(h, since, n);
      } else {
        assert WasUnallocated(h, since, n);
      }
    }
  }

  lemma WereThereStays(h: seq<seq<nat>>, h': seq<seq<nat>>, since: nat, seen: seq<nat>)
    requires WereThere(h, since, seen) && h <= h'
    ensures WereThere(h', since, seen)
  {
    forall i | 0 <= i < |seen| ensures WasThere(h', since, i, seen[i]) {
      assert WasThere(h, since, i, seen[i]);
      var t :| since <= t < |h| && i < |h[t]| && h[t][i] == seen[i];
      assert h'[t] == h[t];
    }
  }

  lemma WereThereNow(h: seq<seq<nat>>, since: nat, seen: seq<nat>)
    requires WereThere(h, since, seen) && since < |h| && |seen| < |h[|h| - 1]|
    ensures WereThere(h, since, seen + [h[|h| - 1][|seen|]])
  {
    var all := seen + [h[|h| - 1][|seen|]];
    forall i | 0 <= i < |all| ensures WasThere(h, since, i, all[i]) {
      assert i < |seen| ==> WasThere(h, since, i, seen[i]);
    }
  }

  /** How many of the first n slots were Reserved before and are not now. */
  function OpenedCount(was: seq<View>, inner: seq<nat>, n: nat): nat
    requires n <= |was| && n <= |inner|
  {
    if n == 0 then 0
    else OpenedCount(was, inner, n - 1) + if was[n - 1].ip == RESERVED && inner[n - 1] != RESERVED then 1 else 0
  }

  lemma {:induction false} OpenedSame(was: seq<View>, inner: seq<nat>, inner': seq<nat>, n: nat)
    requires n <= |was| && n <= |inner| == |inner'|
    requires forall j :: 0 <= j < n ==> (inner[j] == RESERVED <==> inner'[j] == RESERVED)
    ensures OpenedCount(was, inner, n) == OpenedCount(was, inner', n)
  {
    if n > 0 {
      OpenedSame(was, inner, inner', n - 1);
    }
  }

  lemma {:induction false} OpenedOne(was: seq<View>, inner: seq<nat>, inner': seq<nat>, i: nat, n: nat)
    requires i < n <= |was| && n <= |inner| == |inner'|
    requires forall j :: 0 <= j < n && j != i ==> (inner[j] == RESERVED <==> inner'[j] == RESERVED)
    requires was[i].ip == RESERVED && inner[i] == RESERVED && inner'[i] != RESERVED
    ensures OpenedCount(was, inner', n) == OpenedCount(was, inner, n) + 1
  {
    if i == n - 1 {
      OpenedSame(was, inner, inner', n - 1);
    } else {
      OpenedOne(was, inner, inner', i, n - 1);
    }
  }

  /** Slots before n are open, later ones are as Reserved as they were. */
  predicate Frontier(was: seq<View>, inner: seq<nat>, n: nat)
    requires |was| == |inner|
  {
    && (forall k :: 0 <= k < n && k < |inner| ==> inner[k] != RESERVED)
    && forall k :: n <= k < |inner| && was[k].ip == RESERVED ==> inner[k] == RESERVED
  }

  /** No slot is left Reserved before one that was opened. */
  predicate Ordered(was: seq<View>, inner: seq<nat>)
    requires |was| == |inner|
  {
    forall i, j :: 0 <= i < j < |inner| && was[j].ip == RESERVED && inner[j] != RESERVED ==> inner[i] != RESERVED
  }

  lemma FrontierOrdered(was: seq<View>, inner: seq<nat>, n: nat)
    requires |was| == |inner| && Frontier(was, inner, n)
    ensures Ordered(was, inner)
  {
  }

  /** The other slots are as Reserved as before. */
  predicate SameBut(before: seq<nat>, after: seq<nat>, i: nat) {
    |after| == |before| && forall j :: 0 <= j < |before| && j != i ==> (before[j] == RESERVED <==> after[j] == RESERVED)
  }

  /** What one turn does to the count and to the frontier. */
  lemma TurnCounts(was: seq<View>, before: seq<nat>, after: seq<nat>, i: nat, turn: Turn)
    requires i < |was| == |before| && SameBut(before, after, i)
    requires turn == Done ==> was[i].ip == RESERVED && before[i] == RESERVED && after[i] != RESERVED
    requires turn != Done ==> (before[i] == RESERVED <==> after[i] == RESERVED)
    requires turn == Skipped ==> after[i] != RESERVED
    ensures OpenedCount(was, after, |was|) == OpenedCount(was, before, |was|) + if turn == Done then 1 else 0
    ensures Frontier(was, before, i) ==> Frontier(was, after, if turn == Failed then i else i + 1)
  {
    if turn == Done {
      OpenedOne(was, before, after, i, |was|);
    } else {
      OpenedSame(was, before, after, |was|);
    }
  }

  lemma {:induction false} NoneOpened(was: seq<View>, inner: seq<nat>, n: nat)
    requires n <= |was| && n <= |inner| && forall j :: 0 <= j < n ==> inner[j] == was[j].ip
    ensures OpenedCount(was, inner, n) == 0
  {
    if n > 0 {
      NoneOpened(was, inner, n - 1);
    }
  }

  predicate SoundIndex(rev: map<nat, nat>, ifindex: seq<nat>) {
    forall f :: f in rev ==> f != 0 && rev[f] < |ifindex| && ifindex[rev[f]] == f
  }

  predicate CompleteIndex(rev: map<nat, nat>, ifindex: seq<nat>) {
    forall i :: 0 <= i < |ifindex| && ifindex[i] != 0 ==> ifindex[i] in rev && rev[ifindex[i]] == i
  }

  predicate KeepsEntry(before: map<nat, nat>, after: map<nat, nat>, slot: nat, f: nat) {
    f in before && before[f] == slot ==> f in after && after[f] == slot
  }

  predicate OpenIndex(inner: seq<nat>, rev: map<nat, nat>, ifindex: seq<nat>) {
    forall i :: 0 <= i < |ifindex| && i < |inner| && inner[i] != RESERVED && ifindex[i] != 0
                ==> ifindex[i] in rev && rev[ifindex[i]] == i
  }

  predicate TrimmedAt(rev: map<nat, nat>, ifindex: seq<nat>, rev': map<nat, nat>, ifindex': seq<nat>, i: nat)
    requires i < |ifindex| == |ifindex'|
  {
    ifindex'[i] == 0 || (ifindex'[i] == ifindex[i] && KeepsEntry(rev, rev', i, ifindex'[i]))
  }

  /** Some slots lost their device; the others kept it with its entry, and the index is sound. */
  predicate Trimmed(rev: map<nat, nat>, ifindex: seq<nat>, rev': map<nat, nat>, ifindex': seq<nat>) {
    && |ifindex'| == |ifindex| && DistinctDevices(ifindex') && SoundIndex(rev', ifindex')
    && forall i :: 0 <= i < |ifindex| ==> TrimmedAt(rev, ifindex, rev', ifindex', i)
  }

  lemma TrimmedKeeps(inner: seq<nat>, rev: map<nat, nat>, ifindex: seq<nat>, rev': map<nat, nat>, ifindex': seq<nat>)
    requires Trimmed(rev, ifindex, rev', ifindex')
    ensures OpenIndex(inner, rev, ifindex) ==> OpenIndex(inner, rev', ifindex')
    ensures CompleteIndex(rev, ifindex) ==> CompleteIndex(rev', ifindex')
    ensures forall i :: 0 <= i < |ifindex'| ==> ifindex'[i] == ifindex[i] || ifindex'[i] == 0
  {
    forall i | 0 <= i < |ifindex'|
      ensures ifindex'[i] == 0 || (ifindex'[i] == ifindex[i] && KeepsEntry(rev, rev', i, ifindex[i]))
    {
      assert TrimmedAt(rev, ifindex, rev', ifindex', i);
    }
  }

  lemma TrimMore(rev: map<nat, nat>, ifindex: seq<nat>, rev': map<nat, nat>, ifindex': seq<nat>, d: Device)
    requires Trimmed(rev, ifindex, rev', ifindex') && d.slot < |ifindex'| && ifindex'[d.slot] == d.ifindex
    ensures Trimmed(rev, ifindex, rev' - {d.ifindex}, ifindex'[d.slot := 0])
  {
    var next := ifindex'[d.slot := 0];
    forall i | 0 <= i < |ifindex| ensures TrimmedAt(rev, ifindex, rev' - {d.ifindex}, next, i) {
      assert TrimmedAt(rev, ifindex, rev', ifindex', i);
    }
  }

  predicate Ascending(devices: seq<Device>) {
    forall j, k :: 0 <= j < k < |devices| ==> devices[j].slot < devices[k].slot
  }

  /** Each device is the one its slot records, and the slot is one of the first n. */
  predicate FromSlots(devices: seq<Device>, ifindex: seq<nat>, n: nat)
    requires n <= |ifindex|
  {
    forall k :: 0 <= k < |devices| ==> devices[k].slot < n && ifindex[devices[k].slot] == devices[k].ifindex != 0
  }

  /** Each device that one of the first n slots records is there. */
  predicate Covers(devices: seq<Device>, ifindex: seq<nat>, n: nat)
    requires n <= |ifindex|
  {
    forall i :: 0 <= i < n && ifindex[i] != 0 ==> Device(i, ifindex[i]) in devices
  }

  lemma AscendingMore(devices: seq<Device>, d: Device)
    requires Ascending(devices) && forall k :: 0 <= k < |devices| ==> devices[k].slot < d.slot
    ensures Ascending(devices + [d])
  {
    var more := devices + [d];
    forall j, k | 0 <= j < k < |more| ensures more[j].slot < more[k].slot {
      assert more[j] == devices[j];
      assert k < |devices| ==> more[k] == devices[k];
    }
  }

  lemma FromSlotsMore(devices: seq<Device>, ifindex: seq<nat>, n: nat)
    requires n < |ifindex| && FromSlots(devices, ifindex, n) && ifindex[n] != 0
    ensures FromSlots(devices + [Device(n, ifindex[n])], ifindex, n + 1)
  {
  }

  lemma CoversMore(devices: seq<Device>, more: seq<Device>, ifindex: seq<nat>, n: nat)
    requires n < |ifindex| && Covers(devices, ifindex, n)
    requires more == if ifindex[n] == 0 then devices else devices + [Device(n, ifindex[n])]
    ensures Covers(more, ifindex, n + 1)
  {
    forall i | 0 <= i < n + 1 && ifindex[i] != 0 ensures Device(i, ifindex[i]) in more {
      if i == n {
        assert more[|devices|] == Device(i, ifindex[i]);
      }
    }
  }

  /** No listed device belongs to the slot. */
  predicate Unlisted(devices: seq<Device>, i: nat) {
    forall k :: 0 <= k < |devices| ==> devices[k].slot != i
  }

  predicate DistinctDevices(ifindex: seq<nat>) {
    forall i, j :: 0 <= i < j < |ifindex| && ifindex[i] != 0 ==> ifindex[i] != ifindex[j]
  }

  function Without(rev: map<nat, nat>, slot: nat, f: nat, works: bool): map<nat, nat> {
    if f in rev && rev[f] == slot && works then rev - {f} else rev
  }

  /** The reverse index once the slot's device went from `was` to `now`. */
  function Reindexed(rev: map<nat, nat>, slot: nat, was: nat, now: nat, switching: bool, k: Kernel): map<nat, nat> {
    var cleared := if now != was && was != 0 then Without(rev, slot, was, k.drops) else rev;
    if now != was && !k.inserts then cleared
    else
      var inserted := if now != was then cleared[now := slot] else cleared;
      if switching then Without(inserted, slot, was, k.dropsOld) else inserted
  }

  /** The entry of the replaced device survives: the first removal failed, and the
      second was not reached or failed too. */
  predicate LeavesStale(rev: map<nat, nat>, was: nat, now: nat, switching: bool, k: Kernel) {
    now != was && was in rev && !k.drops && !(k.inserts && switching && k.dropsOld)
  }

  predicate FreshDevice(ifindex: seq<nat>, slot: nat, f: nat) {
    f != 0 && forall i :: 0 <= i < |ifindex| && i != slot ==> ifindex[i] != f
  }

  /** The new index is sound exactly if no stale entry survives. */
  lemma ReindexedSound(rev: map<nat, nat>, ifindex: seq<nat>, slot: nat, now: nat, switching: bool, k: Kernel)
    requires SoundIndex(rev, ifindex) && DistinctDevices(ifindex)
    requires slot < |ifindex| && FreshDevice(ifindex, slot, now)
    ensures SoundIndex(Reindexed(rev, slot, ifindex[slot], now, switching, k), ifindex[slot := now])
            <==> !LeavesStale(rev, ifindex[slot], now, switching, k)
    ensures DistinctDevices(ifindex[slot := now])
  {
    var was := ifindex[slot];
    var rev' := Reindexed(rev, slot, was, now, switching, k);
    if LeavesStale(rev, was, now, switching, k) {
      assert was in rev' && rev'[was] == slot;
    } else {
      forall f | f in rev' ensures f != 0 && rev'[f] < |ifindex| && ifindex[slot := now][rev'[f]] == f {
        if f == now {
        } else {
          assert f in rev && rev[f] == rev'[f];
        }
      }
    }
  }

  /** Where the kernel let the slot through, it has an entry if one was inserted, or if one
      was there and no mode switch removed it. Other devices keep their entries. */
  lemma ReindexedEntries(rev: map<nat, nat>, ifindex: seq<nat>, slot: nat, now: nat, switching: bool, k: Kernel)
    requires SoundIndex(rev, ifindex) && DistinctDevices(ifindex)
    requires slot < |ifindex| && FreshDevice(ifindex, slot, now)
    ensures var was, rev' := ifindex[slot], Reindexed(rev, slot, ifindex[slot], now, switching, k);
            && (now == was || k.inserts ==>
                  ((now in rev' && rev'[now] == slot) <==> (now == was ==> was in rev && !(switching && k.dropsOld))))
            && forall f :: f != was && f != now ==>
                 (f in rev' <==> f in rev) && (f in rev' ==> rev'[f] == rev[f])
  {
  }

  /** Whatever the index holds, an entry that names another slot is removed never, and
      replaced only by the new one. */
  lemma ReindexedKeepsOthers(rev: map<nat, nat>, slot: nat, was: nat, now: nat, switching: bool, k: Kernel, f: nat)
    requires f in rev && rev[f] != slot && f != now
    ensures var rev' := Reindexed(rev, slot, was, now, switching, k); f in rev' && rev'[f] == rev[f]
  {
  }

  /** With working map operations and a device of its own kind, nothing gets lost. */
  lemma ReindexedComplete(rev: map<nat, nat>, ifindex: seq<nat>, slot: nat, now: nat, switching: bool, k: Kernel)
    requires SoundIndex(rev, ifindex) && CompleteIndex(rev, ifindex) && DistinctDevices(ifindex)
    requires slot < |ifindex| && FreshDevice(ifindex, slot, now)
    requires k.inserts && (switching ==> now != ifindex[slot])
    ensures CompleteIndex(Reindexed(rev, slot, ifindex[slot], now, switching, k), ifindex[slot := now])
  {
    ReindexedEntries(rev, ifindex, slot, now, switching, k);
    var was, devices, rev' := ifindex[slot], ifindex[slot := now], Reindexed(rev, slot, ifindex[slot], now, switching, k);
    forall i | 0 <= i < |devices| && devices[i] != 0 ensures devices[i] in rev' && rev'[devices[i]] == i {
      if i != slot && devices[i] == was {
        assert false;
      }
    }
  }

  /** The device of a slot differs from what other slots record and from their devices. */
  ghost predicate Fits(kernels: seq<Kernel>, was: seq<View>, i: nat)
    requires i < |kernels| == |was|
  {
    kernels[i].device.Some? ==>
      && kernels[i].device.value != 0
      && (forall j :: 0 <= j < |was| && j != i ==> was[j].ifindex != kernels[i].device.value)
      && forall j :: 0 <= j < |kernels| && j != i ==> kernels[j].device != kernels[i].device
  }

  lemma StillFits(kernels: seq<Kernel>, was: seq<View>, now: seq<nat>, i: nat)
    requires i < |kernels| == |was| == |now| && Fits(kernels, was, i)
    requires forall j :: 0 <= j < |now| ==> now[j] == was[j].ifindex || kernels[j].device == Some(now[j])
    ensures kernels[i].device.Some? ==> FreshDevice(now, i, kernels[i].device.value)
  {
    if kernels[i].device.Some? {
      forall j | 0 <= j < |now| && j != i ensures now[j] != kernels[i].device.value {
        assert kernels[j].device != kernels[i].device;
      }
    }
  }

  /** A device of the other kind is another device. */
  predicate SwitchFits(k: Kernel, was: nat, wasTap: bool, mode: bool) {
    was != 0 && wasTap != mode ==> k.device != Some(was)
  }

  predicate Kept(was: View, now: View) {
    LockFreeChange(was.ip, now.ip) && now.ifindex == was.ifindex && now.tap == was.tap
  }

  predicate Opened(was: View, now: View, k: Kernel, mode: bool) {
    was.ip == RESERVED != now.ip && k.device == Some(now.ifindex) && now.tap == mode
  }

  datatype Turn = Skipped | Done | Failed

  ghost predicate DevicesFit(kernels: seq<Kernel>, was: seq<View>, mode: bool)
    requires |kernels| == |was|
  {
    forall i :: 0 <= i < |kernels| ==>
      && Fits(kernels, was, i) && SwitchFits(kernels[i], was[i].ifindex, was[i].tap, mode)
      && kernels[i].drops && kernels[i].inserts
  }

  class Table {
    var inner: seq<nat>
    var ifindex: seq<nat>
    var tap: seq<bool>
    var rev: map<nat, nat>
    var pending: seq<Change>
    /** Every value inner has had, latest last. */
    ghost var history: seq<seq<nat>>

    ghost predicate Valid()
      reads this
    {
      && |ifindex| == |inner| && |tap| == |inner|
      && 0 < |history| && history[|history| - 1] == inner
      && forall t :: 0 <= t < |history| ==> |history[t]| == |inner|
    }

    /** Other processes run for a while. */
    method Interfere()
      requires Valid()
      modifies this`inner, this`pending, this`history
      ensures Valid() && Interfered(old(inner), inner)
      ensures |pending| <= |old(pending)| && (|pending| == |old(pending)| ==> inner == old(inner))
      ensures old(history) <= history && Quiet(history, |old(history)| - 1)
    {
      var n :| 0 <= n <= |pending|;
      var rest := |pending| - n;
      while |pending| > rest
        invariant Valid() && Interfered(old(inner), inner)
        invariant rest <= |pending| <= |old(pending)| && (|pending| == |old(pending)| ==> inner == old(inner))
        invariant old(history) <= history && Quiet(history, |old(history)| - 1)
      {
        QuietAppend(history, |old(history)| - 1, Applied(inner, pending[0]));
        inner := Applied(inner, pending[0]);
        pending := pending[1..];
        history := history + [inner];
      }
    }

    method Load(i: nat) returns (v: nat)
      requires Valid() && i < |inner|
      modifies this`inner, this`pending, this`history
      ensures Valid() && Interfered(old(inner), inner) && v == inner[i]
      ensures |pending| <= |old(pending)| && old(history) <= history && Quiet(history, |old(history)| - 1)
    {
      Interfere();
      v := inner[i];
    }

    /** Compare-and-swap; it can fail on a value just loaded only if a change intervened. */
    method Cas(i: nat, expected: nat, ip: nat) returns (ok: bool)
      requires Valid() && i < |inner|
      modifies this`inner, this`pending, this`history
      ensures Valid() && |inner| == |old(inner)|
      ensures ok ==> |history| >= 2
      ensures ok ==> var at := history[|history| - 2];
                     Interfered(old(inner), at) && at[i] == expected && inner == at[i := ip]
      ensures !ok ==> Interfered(old(inner), inner) && inner[i] != expected
      ensures !ok && old(inner[i]) == expected ==> |pending| < |old(pending)|
      ensures |pending| <= |old(pending)| && old(history) <= history
      ensures !ok ==> Quiet(history, |old(history)| - 1)
      ensures ok && expected == FREE && ip == RESERVED ==> Polite(history, |old(history)| - 1)
    {
      Interfere();
      ok := inner[i] == expected;
      if ok {
        if expected == FREE && ip == RESERVED {
          PoliteTake(history, |old(history)| - 1, i);
        }
        inner := inner[i := ip];
        history := history + [inner];
      }
    }

    /** Scans for a Free slot and claims the first one it wins: that slot was Free right
        before. It fails only if every slot was taken at some moment of the scan. */
    method FindFreeSlot(ip: nat) returns (slot: Option<nat>)
      requires Valid() && IsAllocated(ip)
      modifies this`inner, this`pending, this`history
      ensures Valid() && Interfered(old(inner), inner)
      ensures slot.Some? ==> |history| >= 2
      ensures slot.Some? ==>
                var at := history[|history| - 2];
                slot.value < |at| && at[slot.value] == FREE && inner == at[slot.value := ip]
      ensures slot.None? ==> AllWereBusy(history, |old(history)| - 1, |inner|)
    {
      ghost var since := |history| - 1;
      for i := 0 to |inner|
        invariant Valid() && Interfered(old(inner), inner) && old(history) <= history
        invariant AllWereBusy(history, since, i)
      {
        ghost var h := history;
        var ok := Cas(i, FREE, ip);
        if ok {
          return Some(i);
        }
        BusyStays(h, history, since, i);
        BusyNow(history, since, i);
      }
      return None;
    }

    /** What the count says of a table that changes underneath: it is the number of
        attachments among values that the slots had during the scan. A positive one was
        witnessed by an Allocated slot, and zero means that every slot was seen unallocated. */
    method CountAllocatedSlots() returns (count: nat, ghost seen: seq<nat>)
      requires Valid()
      modifies this`inner, this`pending, this`history
      ensures Valid() && Interfered(old(inner), inner)
      ensures |pending| <= |old(pending)| && old(history) <= history && count <= |inner|
      ensures count > 0 ==> SomeAllocated(history, |old(history)| - 1, |inner|)
      ensures count == 0 ==> AllUnallocated(history, |old(history)| - 1, |inner|)
      ensures |seen| == |inner| && count == Allocations(seen) && WereThere(history, |old(history)| - 1, seen)
      ensures Quiet(history, |old(history)| - 1)
    {
      ghost var since := |history| - 1;
      count, seen := 0, [];
      for i := 0 to |inner|
        invariant Valid() && Interfered(old(inner), inner)
        invariant |pending| <= |old(pending)| && old(history) <= history && Quiet(history, since)
        invariant |seen| == i && count == Allocations(seen) <= i && WereThere(history, since, seen)
      {
        ghost var h := history;
        var v := Load(i);
        QuietMore(h, history, since);
        WereThereStays(h, history, since, seen);
        WereThereNow(history, since, seen);
        assert (seen + [v])[..i] == seen;
        seen := seen + [v];
        if IsAllocated(v) {
          count := count + 1;
        }
      }
      CountWitness(history, since, seen);
    }

    /** Reserves every Free slot and takes none over; gives up when a lost race reveals an attachment. On
        success every slot is Reserved, or an attachment held it during the scan: a slot
        that an Attach took before the scan reached it is left to it. */
    method ReserveFreeSlots() returns (ok: bool)
      requires Valid()
      modifies this`inner, this`pending, this`history
      ensures Valid() && old(history) <= history && ReservedStays(old(inner), inner)
      ensures ok ==> Settled(history, |old(history)| - 1, inner, |inner|)
      ensures !ok ==> SomeAllocated(history, |old(history)| - 1, |inner|)
      ensures Polite(history, |old(history)| - 1)
    {
      ghost var since := |history| - 1;
      var restart := true;
      while restart
        invariant Valid() && old(history) <= history && ReservedStays(old(inner), inner) && Polite(history, since)
        invariant !restart ==> Settled(history, since, inner, |inner|)
        decreases |pending|, restart
      {
        restart := false;
        var i := 0;
        ghost var budget := |pending|;
        while i < |inner| && !restart
          invariant 0 <= i <= |inner|
          invariant Valid() && old(history) <= history && ReservedStays(old(inner), inner) && Polite(history, since)
          invariant if restart then |pending| < budget else |pending| <= budget && Settled(history, since, inner, i)
          decreases |inner| - i, !restart
        {
          ghost var h, before := history, inner;
          var taken := ReserveIfFree(i);
          PoliteMore(h, history, since);
          if taken {
            SettledStays(h, history, since, before, inner, i);
            SettledNow(history, since, inner, i);
            i := i + 1;
          } else {
            ghost var later, h' := |history| - 1, history;
            var used, _ := CountAllocatedSlots();
            QuietIsPolite(history, later);
            PoliteMore(h', history, since);
            if used > 0 {
              ghost var j :| 0 <= j < |inner| && WasAllocated(history, later, j);
              assert WasAllocated(history, since, j);
              return false;
            }
            restart := true;
          }
        }
      }
      return true;
    }

    /** One slot of the scan: it is taken, by us or by another, unless a race was lost. */
    method ReserveIfFree(i: nat) returns (taken: bool)
      requires Valid() && i < |inner|
      modifies this`inner, this`pending, this`history
      ensures Valid() && old(history) <= history && ReservedStays(old(inner), inner)
      ensures |pending| <= |old(pending)| && (!taken ==> |pending| < |old(pending)|)
      ensures taken ==> inner[i] != FREE
      ensures Polite(history, |old(history)| - 1)
    {
      ghost var since := |history| - 1;
      var v := Load(i);
      ghost var h := history;
      QuietIsPolite(h, since);
      if v == FREE {
        taken := Cas(i, FREE, RESERVED);
        if !taken {
          QuietIsPolite(history, |h| - 1);
        }
        PoliteMore(h, history, since);
      } else {
        taken := true;
      }
    }

    /** Takes every slot over. A lost race restarts the scan; each restart uses up an
        interfering change, and a Reserved slot stays Reserved, so it terminates. */
    method ReserveAllSlots()
      requires Valid()
      modifies this`inner, this`pending, this`history
      ensures Valid() && |inner| == |old(inner)| && AllReserved(|inner|)
    {
      var restart := true;
      while restart
        invariant Valid() && |inner| == |old(inner)|
        invariant !restart ==> AllReserved(|inner|)
        decreases |pending|, restart
      {
        restart := false;
        var i := 0;
        ghost var budget := |pending|;
        while i < |inner| && !restart
          invariant 0 <= i <= |inner| && Valid() && |inner| == |old(inner)|
          invariant AllReserved(i)
          invariant if restart then |pending| < budget else |pending| <= budget
          decreases |inner| - i, !restart
        {
          var v := Load(i);
          if v != RESERVED {
            var won := Cas(i, v, RESERVED);
            restart := !won;
          }
          if !restart {
            i := i + 1;
          }
        }
      }
    }

    ghost predicate AllReserved(n: nat)
      reads this
    {
      forall i :: 0 <= i < n && i < |inner| ==> inner[i] == RESERVED
    }

    ghost predicate NoDevices(n: nat)
      reads this
    {
      forall i :: 0 <= i < n && i < |ifindex| ==> ifindex[i] == 0
    }

    ghost predicate AllReleased()
      reads this
    {
      AllReserved(|inner|) && NoDevices(|ifindex|)
    }

    /** No two slots record the same device. */
    ghost predicate Distinct()
      reads this
    {
      DistinctDevices(ifindex)
    }

    /** Every reverse entry names a slot that records the device. */
    ghost predicate Sound()
      reads this
    {
      SoundIndex(rev, ifindex)
    }

    /** A slot that is open to attachments can be found from its device. */
    ghost predicate Complete()
      reads this
    {
      OpenIndex(inner, rev, ifindex)
    }

    /** Every recorded device can be found, also behind a Reserved slot. Unlike Complete,
        this is what reprovisioning a slot relies on. */
    ghost predicate Indexed()
      reads this
    {
      CompleteIndex(rev, ifindex)
    }

    /** The scan is not atomic, yet its verdict is about one instant: the return. */
    method ValidateAllReleased() returns (ok: bool)
      requires Valid()
      modifies this`inner, this`pending, this`history
      ensures Valid() && Interfered(old(inner), inner)
      ensures ok <==> AllReleased()
    {
      for i := 0 to |inner|
        invariant Valid() && Interfered(old(inner), inner)
        invariant AllReserved(i) && NoDevices(i)
      {
        var f := ifindex[i];
        var v := Load(i);
        if v != RESERVED || f != 0 {
          return false;
        }
      }
      return true;
    }

    /** Unpins only a switch all of whose slots are released at that very moment, even
        though other processes ran between the scan and the unpinning. */
    method StopReleased() returns (unpinned: bool)
      requires Valid()
      modifies this`inner, this`pending, this`history
      ensures Valid() && Interfered(old(inner), inner)
      ensures unpinned ==> AllReleased()
      ensures old(AllReleased()) ==> unpinned
    {
      unpinned := ValidateAllReleased();
      if unpinned {
        Interfere();
      }
    }

    method CollectPortInterfaces() returns (devices: seq<Device>)
      requires Valid()
      ensures Recorded(devices) && Ascending(devices) && Covers(devices, ifindex, |ifindex|)
    {
      devices := [];
      for i := 0 to |ifindex|
        invariant Ascending(devices) && FromSlots(devices, ifindex, i) && Covers(devices, ifindex, i)
      {
        ghost var before := devices;
        if ifindex[i] != 0 {
          AscendingMore(devices, Device(i, ifindex[i]));
          FromSlotsMore(devices, ifindex, i);
          devices := devices + [Device(i, ifindex[i])];
        }
        CoversMore(before, devices, ifindex, i);
      }
    }

    /** The list names each slot at most once, with the device the slot records. */
    ghost predicate Recorded(devices: seq<Device>)
      reads this
    {
      && (forall k :: 0 <= k < |devices| ==>
            devices[k].slot < |ifindex| && ifindex[devices[k].slot] == devices[k].ifindex != 0)
      && forall j, k :: 0 <= j < k < |devices| ==> devices[j].slot != devices[k].slot
    }

    /** Drops the reverse entry and then the slot's record of the device. */
    method ForgetDevice(d: Device)
      requires Valid() && Distinct() && Sound()
      requires d.slot < |ifindex| && ifindex[d.slot] == d.ifindex
      modifies this`ifindex, this`rev
      ensures Valid() && Trimmed(old(rev), old(ifindex), rev, ifindex)
      ensures ifindex == old(ifindex)[d.slot := 0] && rev == old(rev) - {d.ifindex}
    {
      rev := rev - {d.ifindex};
      ifindex := ifindex[d.slot := 0];
    }

    /** Deletes devices until the first failure: exactly the ones listed before the first that
        cannot be deleted are gone, with their entries. Whatever happens the reverse index
        stays sound and complete. */
    method DeletePortInterfaces(devices: seq<Device>, linkOk: nat -> bool, mapOk: nat -> bool)
      returns (ok: bool, ghost n: nat)
      requires Valid() && Distinct() && Sound() && Recorded(devices)
      modifies this`ifindex, this`rev
      ensures Valid() && Trimmed(old(rev), old(ifindex), rev, ifindex)
      ensures (old(Complete()) ==> Complete()) && (old(Indexed()) ==> Indexed())
      ensures forall i :: 0 <= i < |ifindex| ==> ifindex[i] == old(ifindex[i]) || ifindex[i] == 0
      ensures ok ==> forall k :: 0 <= k < |devices| ==> ifindex[devices[k].slot] == 0
      ensures ok <==> forall k :: 0 <= k < |devices| ==> CanDelete(linkOk, mapOk, devices[k].ifindex)
      ensures n <= |devices| && (ok <==> n == |devices|) && (!ok ==> !CanDelete(linkOk, mapOk, devices[n].ifindex))
      ensures forall k :: 0 <= k < n ==> CanDelete(linkOk, mapOk, devices[k].ifindex) && ifindex[devices[k].slot] == 0
      ensures forall k :: n <= k < |devices| ==> ifindex[devices[k].slot] == devices[k].ifindex
      ensures forall i :: 0 <= i < |ifindex| && Unlisted(devices, i) ==> ifindex[i] == old(ifindex[i])
    {
      ok := true;
      var k := 0;
      while k < |devices| && ok
        invariant 0 <= k <= |devices| && Valid() && Trimmed(old(rev), old(ifindex), rev, ifindex)
        invariant forall j :: 0 <= j < k ==> CanDelete(linkOk, mapOk, devices[j].ifindex)
        invariant forall j :: 0 <= j < k ==> ifindex[devices[j].slot] == 0
        invariant forall j :: k <= j < |devices| ==> ifindex[devices[j].slot] == devices[j].ifindex
        invariant forall i :: 0 <= i < |ifindex| && Unlisted(devices, i) ==> ifindex[i] == old(ifindex[i])
        invariant !ok ==> k < |devices| && !CanDelete(linkOk, mapOk, devices[k].ifindex)
        decreases |devices| - k, ok
      {
        if !linkOk(devices[k].ifindex) {
          ok := false;
        } else if !mapOk(devices[k].ifindex) {
          ok := false;
        } else {
          TrimMore(old(rev), old(ifindex), rev, ifindex, devices[k]);
          ForgetDevice(devices[k]);
          k := k + 1;
        }
      }
      n := k;
      TrimmedKeeps(inner, old(rev), old(ifindex), rev, ifindex);
    }

    /** Every recorded device can be deleted, together with its reverse entry. */
    ghost predicate Deletable(linkOk: nat -> bool, mapOk: nat -> bool)
      reads this
    {
      forall i :: 0 <= i < |ifindex| && ifindex[i] != 0 ==> CanDelete(linkOk, mapOk, ifindex[i])
    }

    /** One release round: it succeeds exactly if every device can be deleted, and then
        no slot records a device and the reverse index is empty. */
    method DeleteAllDevices(linkOk: nat -> bool, mapOk: nat -> bool) returns (ok: bool)
      requires Valid() && Distinct() && Sound()
      modifies this`ifindex, this`rev
      ensures Valid() && Distinct() && Sound() && (old(Complete()) ==> Complete())
      ensures old(Indexed()) ==> Indexed()
      ensures ok <==> old(Deletable(linkOk, mapOk))
      ensures ok ==> NoDevices(|ifindex|) && rev == map[]
    {
      var devices := CollectPortInterfaces();
      ghost var n;
      ok, n := DeletePortInterfaces(devices, linkOk, mapOk);
      if ok {
        assert forall i :: 0 <= i < |ifindex| && old(ifindex[i]) != 0 ==> Device(i, old(ifindex[i])) in devices;
        assert forall f :: f !in rev;
      }
    }

    /** Force mode: success establishes exactly the state StopReleased waits for; a device that
        cannot be deleted stops it before it has taken over any attachment, and after it has
        reserved every Free slot unless it saw an attachment. */
    method ReleaseForce(linkOk: nat -> bool, mapOk: nat -> bool) returns (ok: bool)
      requires Valid() && Distinct() && Sound()
      modifies this
      ensures Valid() && Distinct() && Sound() && (old(Complete()) ==> Complete())
      ensures old(Indexed()) ==> Indexed()
      ensures ok <==> old(Deletable(linkOk, mapOk))
      ensures ok ==> AllReleased() && rev == map[]
      ensures !ok ==> Polite(history, |old(history)| - 1)
      ensures !ok ==> Settled(history, |old(history)| - 1, inner, |inner|) || SomeAllocated(history, |old(history)| - 1, |inner|)
    {
      var ignored := ReserveFreeSlots();
      ok := DeleteAllDevices(linkOk, mapOk);
      if ok {
        ReserveAllSlots();
        ok := DeleteAllDevices(linkOk, mapOk);
      }
    }

    /** Safe mode: it takes over no attachment and deletes no device once one was seen. On
        success every slot is Reserved, or an Attach slipped in; a refusal means that an
        attachment was seen or that some device cannot be deleted. */
    method ReleaseSafe(linkOk: nat -> bool, mapOk: nat -> bool) returns (ok: bool)
      requires Valid() && Distinct() && Sound()
      modifies this
      ensures Valid() && Distinct() && Sound() && (old(Complete()) ==> Complete())
      ensures old(Indexed()) ==> Indexed()
      ensures ok ==> NoDevices(|ifindex|) && rev == map[]
      ensures ok ==> Settled(history, |old(history)| - 1, inner, |inner|)
      ensures !ok && old(Deletable(linkOk, mapOk)) ==> ifindex == old(ifindex) && rev == old(rev)
      ensures !ok ==> SomeAllocated(history, |old(history)| - 1, |inner|) || !old(Deletable(linkOk, mapOk))
      ensures ok ==> AllUnallocated(history, |old(history)| - 1, |inner|)
      ensures Polite(history, |old(history)| - 1)
    {
      ghost var since := |history| - 1;
      var used, _ := CountAllocatedSlots();
      QuietIsPolite(history, since);
      if used > 0 {
        return false;
      }
      ghost var h := history;
      ok := ReserveFreeSlots();
      PoliteMore(h, history, since);
      SeenStays(h, history, since);
      if !ok {
        ghost var j :| 0 <= j < |inner| && WasAllocated(history, |h| - 1, j);
        assert WasAllocated(history, since, j);
      } else {
        SettledSooner(history, since, |h| - 1, inner, |inner|);
        ok := DeleteAllDevices(linkOk, mapOk);
      }
    }

    /** No other slot records the device the kernel made (or found) for this one. */
    ghost predicate FreshFor(slot: nat, k: Kernel)
      reads this
    {
      k.device.Some? ==> FreshDevice(ifindex, slot, k.device.value)
    }

    predicate ModeSwitch(slot: nat, mode: bool)
      reads this
      requires slot < |ifindex| == |tap|
    {
      ifindex[slot] != 0 && tap[slot] != mode
    }

    /** The slot ends up with an entry: a new one was inserted, or the old one was there
        and no mode switch removed it. */
    ghost predicate EndsIndexed(slot: nat, mode: bool, k: Kernel)
      reads this
      requires slot < |ifindex| == |tap|
    {
      && k.device.Some?
      && (k.device.value == ifindex[slot] ==> ifindex[slot] in rev && !(ModeSwitch(slot, mode) && k.dropsOld))
    }

    /** The device-recording steps, in the order that never leaves two slots behind one entry. */
    method RecordDevice(slot: nat, mode: bool, newIndex: nat, k: Kernel) returns (ok: bool)
      requires slot < |ifindex| == |tap|
      modifies this`ifindex, this`tap, this`rev
      ensures ifindex == old(ifindex)[slot := newIndex] && tap == old(tap)[slot := mode]
      ensures rev == Reindexed(old(rev), slot, old(ifindex[slot]), newIndex, old(ModeSwitch(slot, mode)), k)
      ensures ok <==> newIndex == old(ifindex[slot]) || k.inserts
    {
      var oldIndex := ifindex[slot];
      var switching := ModeSwitch(slot, mode);
      if newIndex != oldIndex && oldIndex != 0 {
        if oldIndex in rev && rev[oldIndex] == slot && k.drops {
          rev := rev - {oldIndex};
        }
      }
      ifindex := ifindex[slot := newIndex];
      tap := tap[slot := mode];
      if newIndex != oldIndex {
        if !k.inserts {
          return false;
        }
        rev := rev[newIndex := slot];
      }
      if switching && oldIndex in rev && rev[oldIndex] == slot && k.dropsOld {
        rev := rev - {oldIndex};
      }
      return true;
    }

    /** Provisions one slot. A failure leaves it Reserved. */
    method ProvisionSlot(slot: nat, mode: bool, k: Kernel) returns (ok: bool)
      requires Valid() && slot < |inner| && inner[slot] == RESERVED
      requires Distinct() && Sound() && FreshFor(slot, k)
      modifies this
      ensures Valid() && Distinct()
      ensures Interfered(if ok then old(inner)[slot := FREE] else old(inner), inner)
      ensures ok ==> inner[slot] == FREE
      ensures k.device.Some? ==>
                var stale := LeavesStale(old(rev), old(ifindex[slot]), k.device.value, old(ModeSwitch(slot, mode)), k);
                Sound() <==> !stale
      ensures ok <==> k.device.Some? && (k.device.value == old(ifindex[slot]) || k.inserts)
      ensures k.device.None? ==> inner == old(inner) && ifindex == old(ifindex) && rev == old(rev) && tap == old(tap)
      ensures k.device.Some? ==> ifindex == old(ifindex)[slot := k.device.value] && tap == old(tap)[slot := mode]
      ensures ok ==> ((ifindex[slot] in rev && rev[ifindex[slot]] == slot) <==> old(EndsIndexed(slot, mode, k)))
      ensures k.device.Some? ==>
                rev == Reindexed(old(rev), slot, old(ifindex[slot]), k.device.value, old(ModeSwitch(slot, mode)), k)
    {
      var switching := ModeSwitch(slot, mode);
      if k.device.None? {
        return false;
      }
      var newIndex := k.device.value;
      ReindexedSound(rev, ifindex, slot, newIndex, switching, k);
      ReindexedEntries(rev, ifindex, slot, newIndex, switching, k);
      var recorded := RecordDevice(slot, mode, newIndex, k);
      if !recorded {
        return false;
      }
      ok := Unreserve(slot);
    }

    /** Reserved is left to whoever holds the control lock, so the first attempt wins and
        the retry loop around it never turns. */
    method Unreserve(slot: nat) returns (ok: bool)
      requires Valid() && slot < |inner| && inner[slot] == RESERVED
      modifies this`inner, this`pending, this`history
      ensures Valid() && ok && inner[slot] == FREE
      ensures Interfered(old(inner)[slot := FREE], inner)
    {
      ok := Cas(slot, RESERVED, FREE);
    }

    /** Provisioning with working map operations keeps the index sound and complete and
        touches no other slot. */
    method ProvisionWorking(slot: nat, mode: bool, k: Kernel) returns (ok: bool)
      requires Valid() && slot < |inner| && inner[slot] == RESERVED
      requires Distinct() && Sound() && Indexed() && FreshFor(slot, k)
      requires k.drops && k.inserts && SwitchFits(k, ifindex[slot], tap[slot], mode)
      modifies this
      ensures Valid() && |inner| == |old(inner)| && Distinct() && Sound() && Indexed()
      ensures Interfered(if ok then old(inner)[slot := FREE] else old(inner), inner)
      ensures ok <==> k.device.Some?
      ensures ok ==> inner[slot] == FREE
      ensures ifindex == if ok then old(ifindex)[slot := k.device.value] else old(ifindex)
      ensures tap == if ok then old(tap)[slot := mode] else old(tap)
    {
      if k.device.Some? {
        ReindexedComplete(rev, ifindex, slot, k.device.value, ModeSwitch(slot, mode), k);
      }
      ok := ProvisionSlot(slot, mode, k);
    }

    /** One turn of the loop: the slot is skipped, opened, or left Reserved by a failure. */
    method ProvisionTurn(slot: nat, mode: bool, k: Kernel) returns (turn: Turn)
      requires Valid() && slot < |inner| && Distinct() && Sound() && Indexed() && FreshFor(slot, k)
      requires k.drops && k.inserts && SwitchFits(k, ifindex[slot], tap[slot], mode)
      modifies this
      ensures Valid() && |inner| == |old(inner)| && Distinct() && Sound() && Indexed()
      ensures forall i :: 0 <= i < |inner| && (i != slot || turn != Done) ==> Kept(old(ViewOf(i)), ViewOf(i))
      ensures turn == Done ==> Opened(old(ViewOf(slot)), ViewOf(slot), k, mode)
      ensures turn == Failed ==> inner[slot] == RESERVED && k.device.None?
      ensures turn == Skipped ==> inner[slot] != RESERVED
    {
      var v := Load(slot);
      if v != RESERVED {
        return Skipped;
      }
      var ok := ProvisionWorking(slot, mode, k);
      return if ok then Done else Failed;
    }

    function ViewOf(i: nat): View
      reads this
      requires i < |inner| && Valid()
    {
      View(inner[i], ifindex[i], tap[i])
    }

    ghost function Views(n: nat): (v: seq<View>)
      reads this
      requires Valid() && n <= |inner|
      ensures |v| == n && forall i :: 0 <= i < n ==> v[i] == ViewOf(i)
    {
      if n == 0 then [] else Views(n - 1) + [ViewOf(n - 1)]
    }

    /** Slots before i are provisioned or were skipped, the others only changed lock-free,
        and the index is sound and complete. */
    ghost predicate Progress(was: seq<View>, kernels: seq<Kernel>, mode: bool, i: nat)
      reads this
    {
      && Valid() && |inner| == |was| == |kernels| && Distinct() && Sound() && Indexed()
      && forall j :: 0 <= j < |was| ==>
           Kept(was[j], ViewOf(j)) || (j < i && Opened(was[j], ViewOf(j), kernels[j], mode))
    }

    /** Takes the loop one slot further. */
    method ProvisionNext(i: nat, kernels: seq<Kernel>, mode: bool, ghost was: seq<View>) returns (turn: Turn)
      requires i < |kernels| && Progress(was, kernels, mode, i) && DevicesFit(kernels, was, mode)
      modifies this
      ensures Progress(was, kernels, mode, i + 1)
      ensures turn == Failed ==> inner[i] == RESERVED && kernels[i].device.None?
      ensures turn != Failed ==> inner[i] != RESERVED
      ensures forall j :: 0 <= j < |was| && j != i ==> LockFreeChange(old(ViewOf(j)).ip, ViewOf(j).ip)
      ensures forall j :: 0 <= j < |was| && j != i && old(Kept(was[j], ViewOf(j))) ==> Kept(was[j], ViewOf(j))
      ensures OpenedCount(was, inner, |was|) == OpenedCount(was, old(inner), |was|) + if turn == Done then 1 else 0
      ensures Frontier(was, old(inner), i) ==> Frontier(was, inner, if turn == Failed then i else i + 1)
    {
      assert Kept(was[i], ViewOf(i));
      StillFits(kernels, was, ifindex, i);
      turn := ProvisionTurn(i, mode, kernels[i]);
      forall j | 0 <= j < |was| && (j != i || turn != Done) ensures old(inner[j]) == RESERVED <==> inner[j] == RESERVED {
        assert Kept(old(ViewOf(j)), ViewOf(j));
      }
      TurnCounts(was, old(inner), inner, i, turn);
    }

    /** Provisions the Reserved slots in order. With working map operations the index stays
        sound and complete; slots that were not Reserved keep their device; a slot that was
        opened has the device made for it; a failure leaves the failing slot Reserved; a
        success that neither the count nor the filter cut short leaves none Reserved. The
        number returned is the number of slots opened, and a filter keeps all other slots
        out of it. */
    method ProvisionPorts(kernels: seq<Kernel>, mode: bool, port: nat, count: nat) returns (ok: bool, provisioned: nat)
      requires Valid() && Distinct() && Sound() && Indexed()
      requires |kernels| == |inner| && DevicesFit(kernels, Views(|inner|), mode)
      modifies this
      ensures Progress(old(Views(|inner|)), kernels, mode, |inner|)
      ensures ok && port == 0 && (count == 0 || provisioned < count) ==> NoneReserved(0, |inner|)
      ensures ok && 0 < port <= |inner| ==> NoneReserved(port - 1, port)
      ensures count > 0 ==> provisioned <= count
      ensures provisioned == OpenedCount(old(Views(|inner|)), inner, |inner|)
      ensures port > 0 ==> forall j :: 0 <= j < |inner| && j != port - 1 ==> Kept(old(Views(|inner|))[j], ViewOf(j))
      ensures port == 0 ==> Ordered(old(Views(|inner|)), inner)
      ensures !ok ==> exists i :: 0 <= i < |inner| && inner[i] == RESERVED && kernels[i].device.None?
    {
      ghost var was := Views(|inner|);
      provisioned := 0;
      NoneOpened(was, inner, |inner|);
      assert Frontier(was, inner, 0);
      for i := 0 to |inner|
        invariant Progress(was, kernels, mode, i)
        invariant provisioned == OpenedCount(was, inner, |was|)
        invariant port > 0 ==> forall j :: 0 <= j < |was| && j != port - 1 ==> Kept(was[j], ViewOf(j))
        invariant count > 0 ==> provisioned < count
        invariant port == 0 ==> Frontier(was, inner, i)
        invariant 0 < port <= i ==> NoneReserved(port - 1, port)
      {
        if port > 0 && i != port - 1 {
          continue;
        }
        var turn := ProvisionNext(i, kernels, mode, was);
        if turn == Failed {
          if port == 0 {
            FrontierOrdered(was, inner, i);
          }
          return false, provisioned;
        }
        if turn == Done {
          provisioned := provisioned + 1;
          if count > 0 && provisioned >= count {
            if port == 0 {
              FrontierOrdered(was, inner, i + 1);
            }
            return true, provisioned;
          }
        }
      }
      if port == 0 {
        FrontierOrdered(was, inner, |inner|);
      }
      return true, provisioned;
    }

    ghost predicate NoneReserved(from: nat, to: nat)
      reads this
      requires Valid()
    {
      forall i :: from <= i < to && i < |inner| ==> ViewOf(i).ip != RESERVED
    }

    /** A failed insert makes completeness unreachable by retrying: the retry finds the new
        device already recorded, skips the insert and opens the slot without an entry. */
    method RetryAfterFailedInsert(slot: nat, mode: bool, f: nat)
      requires Valid() && slot < |inner| && inner[slot] == RESERVED
      requires Distinct() && Sound() && FreshDevice(ifindex, slot, f) && ifindex[slot] != f
      modifies this
      ensures Valid() && |inner| == |old(inner)| && Distinct() && Sound()
      ensures inner[slot] == FREE && ifindex[slot] == f && f !in rev && !Complete()
    {
      var first := ProvisionSlot(slot, mode, Kernel(Some(f), true, false, true));
      assert f !in rev;
      var second := ProvisionSlot(slot, mode, Kernel(Some(f), true, true, true));
    }
  }
}
