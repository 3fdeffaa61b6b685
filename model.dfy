/** The data of the tracker: Things, the Events logged against them, and
    the small enumerations the rest of the model refers to.

    Instants are whole day numbers (`Day`): every derived metric of the app
    works at day granularity, so a timestamp is the number of the day it
    falls on and "whole days between two instants" is a subtraction. */
module Model {

  datatype Option<+T> = None | Some(value: T)

  /** Identifiers of Things and Events (UUIDs in the app); only compared. */
  type Uuid = nat

  /** A day number. */
  type Day = int

  datatype Category = Home | Health | Relationships | Training | LifeAdmin | Personal

  datatype ThingStatus = NoData | OnTrack | Upcoming | NeedsAttention

  /** One logged occurrence of a Thing. */
  datatype Event = Event(id: Uuid, timestamp: Day, note: Option<string>)

  /** A trackable recurring activity, owned by the DataManager. */
  datatype Thing = Thing(
    id: Uuid,
    name: string,
    category: Category,
    goalFrequency: Option<int>,
    events: seq<Event>,
    createdAt: Day,
    tags: seq<string>,
    remindersEnabled: bool,
    emoji: Option<string>,
    isDeleted: bool,
    deletedAt: Option<Day>)

  /** The soft-delete flag and its timestamp go together. */
  predicate DeletionConsistent(t: Thing) {
    t.isDeleted <==> t.deletedAt.Some?
  }

  /** `Thing.init`: a new Thing starts active, with no events, created now. */
  function NewThing(id: Uuid, name: string, category: Category, goalFrequency: Option<int>,
                    tags: seq<string>, remindersEnabled: bool, emoji: Option<string>, now: Day): (t: Thing)
    ensures t.id == id && t.name == name && t.category == category && t.goalFrequency == goalFrequency
    ensures t.tags == tags && t.remindersEnabled == remindersEnabled && t.emoji == emoji
    ensures t.events == [] && t.createdAt == now
    ensures !t.isDeleted && DeletionConsistent(t)
  {
    Thing(id, name, category, goalFrequency, [], now, tags, remindersEnabled, emoji, false, None)
  }

  /** `Thing(name:)` with `init`'s default arguments: personal, no goal, no
      tags, reminders off, no emoji. The fresh `UUID()` is the caller's `id`. */
  function NewNamedThing(id: Uuid, name: string, now: Day): (t: Thing)
    ensures t.id == id && t.name == name && t.createdAt == now
    ensures t.category == Personal && t.goalFrequency.None? && t.tags == []
    ensures !t.remindersEnabled && t.emoji.None?
    ensures t.events == [] && !t.isDeleted && DeletionConsistent(t)
  {
    NewThing(id, name, Personal, None, [], false, None, now)
  }

  /** The timestamps of a list of events, in the same order. */
  function Times(es: seq<Event>): (r: seq<Day>)
    ensures |r| == |es|
    ensures forall i :: 0 <= i < |es| ==> r[i] == es[i].timestamp
  {
    seq(|es|, i requires 0 <= i < |es| => es[i].timestamp)
  }
}
