/** The DataManager: owner of the collection of Things (active and trashed),
    of their persistence and of the reminders scheduled for them.

    The persistent store is reduced to the snapshot last written by
    `save()` (`saved`), and the system notification centre to its pending
    requests keyed by Thing id (`pending`); decoding a stored or imported
    document is an `Option<seq<Thing>>` handed in by the caller. */
module Manager {
  import opened Model
  import opened Seqs
  import opened Analytics

  /** Days a soft-deleted Thing stays in the trash. */
  const TrashRetentionDays := 7

  /** Days to wait for a reminder when neither a goal nor an average is known. */
  const DefaultReminderDays := 7

  /** The ids of a list of Things, in order. */
  function IdsOf(ts: seq<Thing>): (r: seq<Uuid>)
    ensures |r| == |ts|
    ensures forall i :: 0 <= i < |ts| ==> r[i] == ts[i].id
  {
    seq(|ts|, i requires 0 <= i < |ts| => ts[i].id)
  }

  /** No two Things in the list share an id. */
  ghost predicate UniqueIds(ts: seq<Thing>)
  {
    forall i, j :: 0 <= i < j < |ts| ==> ts[i].id != ts[j].id
  }

  predicate IsActive(t: Thing) { !t.isDeleted }

  predicate IsTrashed(t: Thing) { t.isDeleted }

  /** `activeThings`: the Things not in the trash, in order. */
  function Active(ts: seq<Thing>): (r: seq<Thing>)
    ensures forall t :: t in r <==> t in ts && !t.isDeleted
  {
    Filter(ts, IsActive)
  }

  /** `firstIndex(where: { $0.id == id })`. */
  function FindIndex(ts: seq<Thing>, id: Uuid): (r: Option<nat>)
    ensures r.None? <==> forall i :: 0 <= i < |ts| ==> ts[i].id != id
    ensures r.Some? ==> r.value < |ts| && ts[r.value].id == id
    ensures r.Some? ==> forall j :: 0 <= j < r.value ==> ts[j].id != id
  {
    if ts == [] then None
    else if ts[0].id == id then Some(0)
    else match FindIndex(ts[1..], id)
      case None => None
      case Some(i) => Some(i + 1)
  }

  /** `removeAll { ids contains $0.id }`: keeps, in order, the Things whose
      id is not in `ids`. */
  function WithoutIds(ts: seq<Thing>, ids: set<Uuid>): (r: seq<Thing>)
    ensures |r| <= |ts|
    ensures forall t :: t in r <==> t in ts && t.id !in ids
  {
    if ts == [] then []
    else if ts[0].id in ids then WithoutIds(ts[1..], ids)
    else [ts[0]] + WithoutIds(ts[1..], ids)
  }

  lemma {:induction false} WithoutNoIds(ts: seq<Thing>)
    ensures WithoutIds(ts, {}) == ts
  {
    if ts != [] {
      WithoutNoIds(ts[1..]);
    }
  }

  /** Removing one id after others is removing them all at once. */
  lemma {:induction false} WithoutIdsTwice(ts: seq<Thing>, ids: set<Uuid>, id: Uuid)
    ensures WithoutIds(WithoutIds(ts, ids), {id}) == WithoutIds(ts, ids + {id})
  {
    if ts != [] {
      WithoutIdsTwice(ts[1..], ids, id);
    }
  }

  /** Removing Things never creates a duplicate id. */
  lemma {:induction false} WithoutIdsUnique(ts: seq<Thing>, ids: set<Uuid>)
    requires UniqueIds(ts)
    ensures UniqueIds(WithoutIds(ts, ids))
  {
    if ts != [] {
      assert UniqueIds(ts[1..]) by {
        forall i, j | 0 <= i < j < |ts[1..]| ensures ts[1..][i].id != ts[1..][j].id {
          assert ts[1..][i] == ts[i + 1] && ts[1..][j] == ts[j + 1];
        }
      }
      WithoutIdsUnique(ts[1..], ids);
      if ts[0].id !in ids {
        var rest := WithoutIds(ts[1..], ids);
        var r := [ts[0]] + rest;
        forall i, j | 0 <= i < j < |r| ensures r[i].id != r[j].id {
          if i == 0 {
            assert r[j] in ts[1..];
            var k :| 0 <= k < |ts[1..]| && ts[1..][k] == r[j];
            assert ts[k + 1] == r[j];
          }
        }
      }
    }
  }

  /** Ids are unique and every Thing's deletion flag matches its date. */
  ghost predicate ValidThings(ts: seq<Thing>)
  {
    UniqueIds(ts) && forall i :: 0 <= i < |ts| ==> DeletionConsistent(ts[i])
  }

  /** Removing Things keeps a valid list valid. */
  lemma WithoutIdsValid(ts: seq<Thing>, ids: set<Uuid>)
    requires ValidThings(ts)
    ensures ValidThings(WithoutIds(ts, ids))
  {
    WithoutIdsUnique(ts, ids);
    var r := WithoutIds(ts, ids);
    forall i | 0 <= i < |r| ensures DeletionConsistent(r[i]) {
      assert r[i] in ts;
    }
  }

  /** A trashed Thing deleted more than the retention window before `now`:
      its seven days in the trash ended before today. */
  function Expired(t: Thing, now: Day): (r: bool)
    ensures r ==> t.isDeleted
    ensures t.isDeleted && DeletionConsistent(t) ==> (r <==> t.deletedAt.value + TrashRetentionDays < now)
  {
    t.isDeleted && t.deletedAt.Some? && t.deletedAt.value < now - TrashRetentionDays
  }

  /** The ids a startup sweep at `now` deletes. */
  ghost function ExpiredIds(ts: seq<Thing>, now: Day): set<Uuid>
  {
    set t | t in ts && Expired(t, now) :: t.id
  }

  /** The set of ids of a list of Things. */
  ghost function IdSet(ts: seq<Thing>): set<Uuid>
  {
    set t | t in ts :: t.id
  }

  lemma IdSetExtend(s: seq<Thing>, i: nat)
    requires i < |s|
    ensures IdSet(s[..i + 1]) == IdSet(s[..i]) + {s[i].id}
  {
    assert s[..i + 1] == s[..i] + [s[i]];
  }

  /** Dropping a set of keys and then one more drops them all at once. */
  lemma MapMinusTwice(p: map<Uuid, Option<Day>>, ids: set<Uuid>, id: Uuid)
    ensures (p - ids) - {id} == p - (ids + {id})
  {
  }

  /** The sweep's test: deleted before the cutoff day. */
  function DeletedBefore(cutoff: Day): (r: Thing -> bool)
    ensures forall t: Thing :: t.isDeleted ==> (r(t) <==> Expired(t, cutoff + TrashRetentionDays))
  {
    (t: Thing) => t.deletedAt.Some? && t.deletedAt.value < cutoff
  }

  /** The list the sweep builds, the trashed Things deleted before the
      cutoff, carries exactly the expired ids. */
  lemma SweepListsExpired(ts: seq<Thing>, now: Day)
    ensures var listed := Filter(Filter(ts, IsTrashed), DeletedBefore(now - TrashRetentionDays));
      && IdSet(listed) == ExpiredIds(ts, now)
      && (listed == [] <==> ExpiredIds(ts, now) == {})
  {
    ExpiredIdsListed(ts, now, Filter(Filter(ts, IsTrashed), DeletedBefore(now - TrashRetentionDays)));
  }

  /** A list holding exactly the expired Things carries exactly the
      expired ids, and is empty exactly when there are none. */
  lemma ExpiredIdsListed(ts: seq<Thing>, now: Day, listed: seq<Thing>)
    requires forall t :: t in listed <==> t in ts && Expired(t, now)
    ensures IdSet(listed) == ExpiredIds(ts, now)
    ensures listed == [] <==> ExpiredIds(ts, now) == {}
  {
    if listed != [] {
      assert listed[0].id in IdSet(listed);
    }
  }

  /** With unique ids, the sweep keeps exactly the Things that have not
      expired: everything active and everything trashed recently enough. */
  lemma SweepKeepsUnexpired(ts: seq<Thing>, now: Day)
    requires UniqueIds(ts)
    ensures forall t :: t in WithoutIds(ts, ExpiredIds(ts, now)) <==> t in ts && !Expired(t, now)
  {
    forall t | t in ts && t.id in ExpiredIds(ts, now) ensures Expired(t, now) {
      var u :| u in ts && Expired(u, now) && u.id == t.id;
      var i :| 0 <= i < |ts| && ts[i] == t;
      var j :| 0 <= j < |ts| && ts[j] == u;
      assert i == j;
    }
  }

  /** Days before a reminder fires: the goal, else the average, else 7.
      Only a goal can make it negative. */
  function DaysToWait(t: Thing): (r: int)
    ensures t.goalFrequency.Some? ==> r == t.goalFrequency.value
    ensures t.goalFrequency.None? ==> r >= 0
    ensures t.goalFrequency.None? && |t.events| < 2 ==> r == DefaultReminderDays
  {
    match t.goalFrequency
    case Some(goal) => goal
    case None =>
      match MeanGap(t.events)
      case Some(avg) =>
        MeanGapNonNegative(t.events);
        avg
      case None => DefaultReminderDays
  }

  /** The day a reminder scheduled for `t` is meant to fire: the latest
      event's day plus the days to wait. (The app writes day-of-month plus
      the wait into unnormalised date components; the model takes the date
      those components are meant to denote.) Without an event the app still
      adds a request, but with no date in its trigger: none here. */
  function FireDay(t: Thing): (r: Option<Day>)
    ensures r.None? <==> t.events == []
  {
    match LastEvent(t.events)
    case None => None
    case Some(last) => Some(last.timestamp + DaysToWait(t))
  }

  /** The reminder falls the goal's days after the latest event; with no
      goal it falls on the next suggested date once there is an average,
      and a week after the only event otherwise. */
  lemma ReminderDay(t: Thing)
    requires t.events != []
    ensures t.goalFrequency.Some? ==>
      FireDay(t).value - t.goalFrequency.value == LastEvent(t.events).value.timestamp
    ensures t.goalFrequency.None? && |t.events| >= 2 ==> FireDay(t) == NextSuggestedDate(t)
    ensures t.goalFrequency.None? && |t.events| == 1 ==>
      FireDay(t) == Some(t.events[0].timestamp + DefaultReminderDays)
  {
    if t.goalFrequency.None? {
      if |t.events| == 1 {
        ReminderAfterOnlyEvent(t);
      } else {
        ReminderOnSuggestedDate(t);
      }
    }
  }

  lemma ReminderAfterOnlyEvent(t: Thing)
    requires |t.events| == 1 && t.goalFrequency.None?
    ensures FireDay(t) == Some(t.events[0].timestamp + DefaultReminderDays)
  {
    assert t.events[1..] == [];
    assert LastEvent(t.events) == Some(t.events[0]);
  }

  lemma ReminderOnSuggestedDate(t: Thing)
    requires |t.events| >= 2 && t.goalFrequency.None?
    ensures FireDay(t) == NextSuggestedDate(t)
  {
    var last := LastEvent(t.events).value;
    var avg := MeanGap(t.events).value;
    assert DaysToWait(t) == avg;
    assert NextSuggestedDate(t) == Some(last.timestamp + avg);
  }

  /** The pending requests after `cancelReminder` and then, if reminders are
      on, `scheduleReminder`: at most one request per id, so an update never
      leaves two reminders for a Thing, and other Things' requests stay. */
  function Rescheduled(p: map<Uuid, Option<Day>>, t: Thing): (r: map<Uuid, Option<Day>>)
    ensures t.id in r <==> t.remindersEnabled
    ensures t.remindersEnabled ==> r[t.id] == FireDay(t)
    ensures forall id :: id != t.id ==> (id in r <==> id in p)
    ensures forall id :: id != t.id && id in r ==> r[id] == p[id]
  {
    if t.remindersEnabled then (p - {t.id})[t.id := FireDay(t)] else p - {t.id}
  }

  /** `softDeleteThing`'s copy: in the trash since `now`, otherwise the same;
      restoring it gives back the active Thing it was made from. */
  function MarkedDeleted(t: Thing, now: Day): (r: Thing)
    ensures r.isDeleted && r.deletedAt == Some(now) && DeletionConsistent(r)
    ensures r.(isDeleted := t.isDeleted, deletedAt := t.deletedAt) == t
    ensures !t.isDeleted && t.deletedAt.None? ==> MarkedRestored(r) == t
  {
    t.(isDeleted := true, deletedAt := Some(now))
  }

  /** `restoreThing`'s copy: out of the trash, otherwise the same. */
  function MarkedRestored(t: Thing): (r: Thing)
    ensures !r.isDeleted && r.deletedAt.None? && DeletionConsistent(r)
    ensures r.(isDeleted := t.isDeleted, deletedAt := t.deletedAt) == t
  {
    t.(isDeleted := false, deletedAt := None)
  }

  /** `addEvent`'s copy: one more event, otherwise the same. */
  function WithEvent(t: Thing, e: Event): (r: Thing)
    ensures |r.events| == |t.events| + 1 && r.events[|t.events|] == e
    ensures r.events[..|t.events|] == t.events
    ensures r.(events := t.events) == t
  {
    t.(events := t.events + [e])
  }

  /** `importData`'s merge: each imported Thing in turn is appended unless
      its id is already present, counting those appended before it. */
  function MergeById(existing: seq<Thing>, imported: seq<Thing>): (r: seq<Thing>)
    ensures |existing| <= |r| <= |existing| + |imported|
    decreases |imported|
  {
    if imported == [] then existing
    else
      var next := if imported[0].id in IdsOf(existing) then existing else existing + [imported[0]];
      MergeById(next, imported[1..])
  }

  /** The merge keeps the existing Things as a prefix, appends only imported
      Things whose id was not there, and never duplicates an id. */
  lemma {:induction false} MergeKeepsExisting(existing: seq<Thing>, imported: seq<Thing>)
    ensures |existing| <= |MergeById(existing, imported)|
    ensures MergeById(existing, imported)[..|existing|] == existing
    ensures forall k :: |existing| <= k < |MergeById(existing, imported)| ==>
      MergeById(existing, imported)[k] in imported &&
      MergeById(existing, imported)[k].id !in IdsOf(existing)
    ensures UniqueIds(existing) ==> UniqueIds(MergeById(existing, imported))
    decreases |imported|
  {
    if imported != [] {
      var x := imported[0];
      var next := if x.id in IdsOf(existing) then existing else existing + [x];
      MergeKeepsExisting(next, imported[1..]);
      var r := MergeById(next, imported[1..]);
      assert r[..|existing|] == next[..|existing|];
      forall k | |existing| <= k < |r| ensures r[k] in imported && r[k].id !in IdsOf(existing) {
        if k < |next| {
          assert r[k] == x;
        } else {
          assert r[k] in imported[1..] && r[k].id !in IdsOf(next);
          assert IdsOf(existing) <= IdsOf(next);
        }
      }
      if UniqueIds(existing) {
        assert UniqueIds(next) by {
          if x.id !in IdsOf(existing) {
            forall i | 0 <= i < |existing| ensures existing[i].id != x.id {
              assert IdsOf(existing)[i] == existing[i].id;
            }
          }
        }
      }
    }
  }

  /** Every imported id ends up present after the merge. */
  lemma {:induction false} MergeCoversImported(existing: seq<Thing>, imported: seq<Thing>)
    ensures forall x :: x in imported ==> x.id in IdsOf(MergeById(existing, imported))
    ensures forall id :: id in IdsOf(existing) ==> id in IdsOf(MergeById(existing, imported))
    decreases |imported|
  {
    if imported != [] {
      var x := imported[0];
      var next := if x.id in IdsOf(existing) then existing else existing + [x];
      MergeCoversImported(next, imported[1..]);
      assert x.id in IdsOf(next) by {
        if x.id !in IdsOf(existing) {
          assert IdsOf(next)[|existing|] == x.id;
        }
      }
      forall i | 0 <= i < |existing| ensures IdsOf(existing)[i] in IdsOf(next) {
        assert next[i] == existing[i];
        assert IdsOf(next)[i] == IdsOf(existing)[i];
      }
    }
  }

  /** Importing Things whose ids are all present changes nothing. */
  lemma {:induction false} MergeOfKnownIds(existing: seq<Thing>, imported: seq<Thing>)
    requires forall x :: x in imported ==> x.id in IdsOf(existing)
    ensures MergeById(existing, imported) == existing
    decreases |imported|
  {
    if imported != [] {
      assert imported[0] in imported;
      MergeOfKnownIds(existing, imported[1..]);
    }
  }

  /** Importing Things with fresh, distinct ids appends all of them. */
  lemma {:induction false} MergeOfFreshIds(existing: seq<Thing>, imported: seq<Thing>)
    requires UniqueIds(existing + imported)
    ensures MergeById(existing, imported) == existing + imported
    decreases |imported|
  {
    if imported != [] {
      var all := existing + imported;
      var x := imported[0];
      assert x.id !in IdsOf(existing) by {
        forall i | 0 <= i < |existing| ensures IdsOf(existing)[i] != x.id {
          assert all[i] == existing[i] && all[|existing|] == x;
        }
      }
      assert (existing + [x]) + imported[1..] == all;
      MergeOfFreshIds(existing + [x], imported[1..]);
    }
  }

  /** Keeping only active Things never creates a duplicate id. */
  lemma {:induction false} ActiveUnique(ts: seq<Thing>)
    requires UniqueIds(ts)
    ensures UniqueIds(Active(ts))
  {
    if ts != [] {
      assert UniqueIds(ts[1..]) by {
        forall i, j | 0 <= i < j < |ts[1..]| ensures ts[1..][i].id != ts[1..][j].id {
          assert ts[1..][i] == ts[i + 1] && ts[1..][j] == ts[j + 1];
        }
      }
      ActiveUnique(ts[1..]);
      var rest := Active(ts[1..]);
      assert Active(ts) == if IsActive(ts[0]) then [ts[0]] + rest else rest;
      if IsActive(ts[0]) {
        var r := [ts[0]] + rest;
        forall i, j | 0 <= i < j < |r| ensures r[i].id != r[j].id {
          if i == 0 {
            assert r[j] in rest;
            var k :| 0 <= k < |ts[1..]| && ts[1..][k] == r[j];
            assert ts[k + 1] == r[j];
          }
        }
      }
    }
  }

  /** Export then import into an empty manager gives back exactly the
      active Things; importing a manager's own export into it is a no-op. */
  lemma ExportImportRoundTrip(ts: seq<Thing>)
    requires UniqueIds(ts)
    ensures MergeById([], Active(ts)) == Active(ts)
    ensures MergeById(ts, Active(ts)) == ts
  {
    ActiveUnique(ts);
    assert [] + Active(ts) == Active(ts);
    MergeOfFreshIds([], Active(ts));
    forall x | x in Active(ts) ensures x.id in IdsOf(ts) {
      var i :| 0 <= i < |ts| && ts[i] == x;
      assert IdsOf(ts)[i] == x.id;
    }
    MergeOfKnownIds(ts, Active(ts));
  }

  class DataManager {
    /** `things`: active and trashed Things, in insertion order. */
    var things: seq<Thing>
    /** The notification centre's pending requests, keyed by Thing id. */
    var pending: map<Uuid, Option<Day>>
    /** The decoded contents of the persistent store's Things entry. */
    ghost var saved: Option<seq<Thing>>

    /** Ids are unique and every Thing's deletion flag matches its date. */
    ghost predicate Valid()
      reads this
    {
      ValidThings(things)
    }

    /** `init`: load the stored Things (none if the entry is missing or
        undecodable), then sweep the trash. */
    constructor (stored: Option<seq<Thing>>, centre: map<Uuid, Option<Day>>, now: Day)
      ensures var loaded := if stored.Some? then stored.value else [];
        && things == WithoutIds(loaded, ExpiredIds(loaded, now))
        && pending == centre - ExpiredIds(loaded, now)
        && saved == if ExpiredIds(loaded, now) == {} then stored else Some(things)
      ensures stored.None? || ValidThings(stored.value) ==> Valid()
    {
      things := if stored.Some? then stored.value else [];
      pending := centre;
      saved := stored;
      new;
      CleanupOldTrash(now);
    }

    /** `activeThings`. */
    function ActiveThings(): (r: seq<Thing>)
      reads this
      ensures forall t :: t in r <==> t in things && !t.isDeleted
    {
      Active(things)
    }

    /** `trashedThings`. */
    function TrashedThings(): (r: seq<Thing>)
      reads this
      ensures forall t :: t in r <==> t in things && t.isDeleted
    {
      Filter(things, IsTrashed)
    }

    method AddThing(thing: Thing)
      modifies this
      ensures things == old(things) + [thing] && saved == Some(things)
      ensures pending == if thing.remindersEnabled then old(pending)[thing.id := FireDay(thing)] else old(pending)
      ensures old(Valid()) && thing.id !in old(IdsOf(things)) && DeletionConsistent(thing) ==> Valid()
    {
      things := things + [thing];
      saved := Some(things);
      if thing.remindersEnabled {
        ScheduleReminder(thing);
      }
      if old(Valid()) && thing.id !in old(IdsOf(things)) {
        forall i | 0 <= i < |old(things)| ensures things[i].id != thing.id {
          assert old(IdsOf(things))[i] == things[i].id;
        }
      }
    }

    /** Replace the first Thing with the same id; a no-op if there is none. */
    method UpdateThing(thing: Thing)
      modifies this
      ensures match FindIndex(old(things), thing.id)
        case None => things == old(things) && pending == old(pending) && saved == old(saved)
        case Some(i) =>
          && things == old(things)[i := thing]
          && saved == Some(things)
          && pending == Rescheduled(old(pending), thing)
      ensures IdsOf(things) == old(IdsOf(things))
      ensures old(Valid()) && DeletionConsistent(thing) ==> Valid()
    {
      var index := FindIndex(things, thing.id);
      if index.Some? {
        things := things[index.value := thing];
        saved := Some(things);
        CancelReminder(thing);
        if thing.remindersEnabled {
          ScheduleReminder(thing);
        }
        assert IdsOf(things) == old(IdsOf(things));
      }
    }

    /** Put a Thing in the trash as of `now` and drop its reminder. */
    method SoftDeleteThing(thing: Thing, now: Day)
      modifies this
      ensures match FindIndex(old(things), thing.id)
        case None => things == old(things) && saved == old(saved)
        case Some(i) => things == old(things)[i := MarkedDeleted(thing, now)] && saved == Some(things)
      ensures pending == old(pending) - {thing.id}
      ensures IdsOf(things) == old(IdsOf(things))
      ensures old(Valid()) ==> Valid()
    {
      var updated := MarkedDeleted(thing, now);
      UpdateThing(updated);
      CancelReminder(thing);
    }

    /** Take a Thing out of the trash; its reminder is rescheduled. */
    method RestoreThing(thing: Thing)
      modifies this
      ensures match FindIndex(old(things), thing.id)
        case None => things == old(things) && pending == old(pending) && saved == old(saved)
        case Some(i) =>
          && things == old(things)[i := MarkedRestored(thing)]
          && saved == Some(things)
          && pending == Rescheduled(old(pending), MarkedRestored(thing))
      ensures IdsOf(things) == old(IdsOf(things))
      ensures old(Valid()) ==> Valid()
    {
      var updated := MarkedRestored(thing);
      UpdateThing(updated);
    }

    /** Remove every Thing with this id and its reminder, for good. */
    method PermanentlyDeleteThing(thing: Thing)
      modifies this
      ensures things == WithoutIds(old(things), {thing.id}) && saved == Some(things)
      ensures pending == old(pending) - {thing.id}
      ensures old(Valid()) ==> Valid()
    {
      CancelReminder(thing);
      things := WithoutIds(things, {thing.id});
      saved := Some(things);
      if old(Valid()) {
        WithoutIdsUnique(old(things), {thing.id});
      }
    }

    /** Log an event against the caller's copy of a Thing. */
    method AddEvent(thing: Thing, event: Event)
      modifies this
      ensures match FindIndex(old(things), thing.id)
        case None => things == old(things) && pending == old(pending) && saved == old(saved)
        case Some(i) =>
          && things == old(things)[i := WithEvent(thing, event)]
          && saved == Some(things)
          && pending == Rescheduled(old(pending), WithEvent(thing, event))
      ensures IdsOf(things) == old(IdsOf(things))
      ensures old(Valid()) && DeletionConsistent(thing) ==> Valid()
    {
      var updated := WithEvent(thing, event);
      UpdateThing(updated);
    }

    /** The document `exportData` encodes: the active Things only. */
    method ExportData() returns (doc: seq<Thing>)
      ensures doc == Active(things)
      ensures forall t :: t in doc <==> t in things && !t.isDeleted
    {
      doc := ActiveThings();
    }

    /** Merge a decoded document by id; false, and nothing changes, when the
        document did not decode. */
    method ImportData(decoded: Option<seq<Thing>>) returns (ok: bool)
      modifies this
      ensures ok <==> decoded.Some?
      ensures !ok ==> things == old(things) && saved == old(saved)
      ensures ok ==> things == MergeById(old(things), decoded.value) && saved == Some(things)
      ensures pending == old(pending)
      ensures old(UniqueIds(things)) ==> UniqueIds(things)
      ensures old(Valid()) && (decoded.Some? ==> forall x :: x in decoded.value ==> DeletionConsistent(x)) ==> Valid()
    {
      if decoded.None? {
        return false;
      }
      var imported := decoded.value;
      for i := 0 to |imported|
        invariant MergeById(things, imported[i..]) == MergeById(old(things), imported)
        invariant pending == old(pending)
      {
        assert imported[i..][1..] == imported[i + 1..];
        if imported[i].id !in IdsOf(things) {
          things := things + [imported[i]];
        }
      }
      assert imported[|imported|..] == [];
      saved := Some(things);
      MergeKeepsExisting(old(things), imported);
      if old(Valid()) && forall x :: x in imported ==> DeletionConsistent(x) {
        forall k | 0 <= k < |things| ensures DeletionConsistent(things[k]) {
          if k < |old(things)| {
            assert things[k] == things[..|old(things)|][k];
          }
        }
      }
      return true;
    }

    /** The startup sweep: permanently delete every trashed Thing deleted
        more than the retention window before `now`. */
    method CleanupOldTrash(now: Day)
      modifies this
      ensures things == WithoutIds(old(things), ExpiredIds(old(things), now))
      ensures pending == old(pending) - ExpiredIds(old(things), now)
      ensures saved == if ExpiredIds(old(things), now) == {} then old(saved) else Some(things)
      ensures old(Valid()) ==> Valid()
    {
      var cutoff := now - TrashRetentionDays;
      var toDelete := Filter(TrashedThings(), DeletedBefore(cutoff));
      SweepListsExpired(things, now);
      ghost var removed: set<Uuid> := {};
      WithoutNoIds(things);
      for i := 0 to |toDelete|
        invariant removed == IdSet(toDelete[..i])
        invariant things == WithoutIds(old(things), removed)
        invariant pending == old(pending) - removed
        invariant saved == if i == 0 then old(saved) else Some(things)
      {
        IdSetExtend(toDelete, i);
        WithoutIdsTwice(old(things), removed, toDelete[i].id);
        MapMinusTwice(old(pending), removed, toDelete[i].id);
        PermanentlyDeleteThing(toDelete[i]);
        removed := removed + {toDelete[i].id};
      }
      assert toDelete[..|toDelete|] == toDelete;
      if old(Valid()) {
        WithoutIdsValid(old(things), ExpiredIds(old(things), now));
      }
    }

    /** `scheduleReminder`: add (or replace) the request for this id, firing
        the days to wait after the latest event. */
    method ScheduleReminder(thing: Thing)
      modifies this`pending
      ensures pending == if thing.remindersEnabled then old(pending)[thing.id := FireDay(thing)] else old(pending)
    {
      if !thing.remindersEnabled {
        return;
      }
      var daysToWait: int;
      match thing.goalFrequency {
        case Some(goal) =>
          daysToWait := goal;
        case None =>
          var average := AverageFrequency(thing.events);
          daysToWait := if average.Some? then average.value else DefaultReminderDays;
      }
      assert daysToWait == DaysToWait(thing);
      var fire: Option<Day> := None;
      var last := LastEvent(thing.events);
      if last.Some? {
        fire := Some(last.value.timestamp + daysToWait);
      }
      assert fire == FireDay(thing);
      pending := pending[thing.id := fire];
    }

    /** `cancelReminder`: drop any pending request for this id. */
    method CancelReminder(thing: Thing)
      modifies this`pending
      ensures pending == old(pending) - {thing.id}
    {
      pending := pending - {thing.id};
    }
  }
}
