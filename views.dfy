/** The two pieces of selection logic in the screens: the home list (which
    Things are shown, and in what order) and the trash countdown. */
module Views {
  import opened Model
  import opened Seqs
  import opened Analytics
  import opened Manager

  /** The home list's sort choices. */
  datatype SortOption = NeedsAttentionFirst | RecentlyDone | Alphabetical | ByCategory

  /** Position of a status in `[.needsAttention, .upcoming, .onTrack, .noData]`:
      the more pressing the status, the earlier it sorts, and no data sorts last. */
  function StatusRank(s: ThingStatus): (r: nat)
    ensures r <= 3
    ensures r == 3 <==> s == NoData
    ensures s != NoData ==> r == 2 - Severity(s)
  {
    match s
    case NeedsAttention => 0
    case Upcoming => 1
    case OnTrack => 2
    case NoData => 3
  }

  /** A category's raw value, which the by-category sort compares: a
      capitalised display name. */
  function RawValue(c: Category): (r: string)
    ensures |r| > 0 && 'A' <= r[0] <= 'Z'
  {
    match c
    case Home => "Home"
    case Health => "Health"
    case Relationships => "Relationships"
    case Training => "Training"
    case LifeAdmin => "Life Admin"
    case Personal => "Personal"
  }

  /** A string as a sort key: its character codes. */
  function Chars(s: string): seq<int>
  {
    seq(|s|, i requires 0 <= i < |s| => s[i] as int)
  }

  /** What each sort option orders by: the status rank; the latest event's
      day, newest first, with Things that have none last; the name; the
      category's raw value. */
  function SortKey(option: SortOption, now: Day, t: Thing): (r: seq<int>)
    ensures option == NeedsAttentionFirst ==>
      |r| == 1 && (r[0] == 3 <==> Status(t, now) == NoData)
    ensures option == RecentlyDone ==> (r == [1] <==> t.events == [])
    ensures option == RecentlyDone && t.events != [] ==>
      |r| == 2 && r[0] == 0 && forall e :: e in t.events ==> r[1] <= -e.timestamp
    ensures option == Alphabetical ==> |r| == |t.name|
  {
    match option
    case NeedsAttentionFirst => [StatusRank(Status(t, now))]
    case RecentlyDone =>
      (match LastEvent(t.events)
       case None => [1]
       case Some(last) => [0, -last.timestamp])
    case Alphabetical => Chars(t.name)
    case ByCategory => Chars(RawValue(t.category))
  }

  /** Position of a category in the alphabetical order of the raw values. */
  function CategoryRank(c: Category): nat
  {
    match c
    case Health => 0
    case Home => 1
    case LifeAdmin => 2
    case Personal => 3
    case Relationships => 4
    case Training => 5
  }

  /** Comparing raw values orders the categories Health, Home, Life Admin,
      Personal, Relationships, Training. */
  lemma RawValueOrder(a: Category, b: Category)
    ensures KeyLe(Chars(RawValue(a)), Chars(RawValue(b))) <==> CategoryRank(a) <= CategoryRank(b)
  {
    var x, y := Chars(RawValue(a)), Chars(RawValue(b));
    if a == b {
      KeyLeReflexive(x);
    } else if (a == Health && b == Home) || (a == Home && b == Health) {
      assert x[..1] == y[..1];
      KeyLeAt(x, y, 1);
    } else {
      KeyLeAt(x, y, 0);
    }
  }

  function KeyFor(option: SortOption, now: Day): Thing -> seq<int>
  {
    (t: Thing) => SortKey(option, now, t)
  }

  /** The search test: the name or one of the tags contains the query, by
      the platform's locale-aware, case-insensitive `contains`. */
  predicate MatchesSearch(t: Thing, query: string, contains: (string, string) -> bool): (r: bool)
    ensures contains(t.name, query) ==> r
    ensures forall tag :: tag in t.tags && contains(tag, query) ==> r
    ensures t.tags == [] ==> (r <==> contains(t.name, query))
  {
    contains(t.name, query) || exists tag :: tag in t.tags && contains(tag, query)
  }

  function InCategory(category: Option<Category>): Thing -> bool
  {
    (t: Thing) => category.None? || t.category == category.value
  }

  function Matching(query: string, contains: (string, string) -> bool): Thing -> bool
  {
    (t: Thing) => query == [] || MatchesSearch(t, query, contains)
  }

  /** Whether the home list shows a Thing: active, in the selected category
      if one is selected, and matching the search text if there is one. */
  function ShownBy(category: Option<Category>, query: string, contains: (string, string) -> bool): Thing -> bool
  {
    (t: Thing) => IsActive(t) && InCategory(category)(t) && Matching(query, contains)(t)
  }

  function ActiveIn(category: Option<Category>): Thing -> bool
  {
    (t: Thing) => IsActive(t) && InCategory(category)(t)
  }

  /** The category step keeps the active Things of the selected category. */
  lemma CategoryStep(things: seq<Thing>, category: Option<Category>)
    ensures Filter(things, ActiveIn(category))
         == if category.Some? then Filter(Active(things), InCategory(category)) else Active(things)
  {
    if category.Some? {
      FilterTwice(things, IsActive, InCategory(category), ActiveIn(category));
    } else {
      forall x: Thing ensures IsActive(x) == ActiveIn(category)(x) {
        assert InCategory(category)(x);
      }
      FilterSame(things, IsActive, ActiveIn(category));
    }
  }

  /** The search step keeps, of those, the ones matching the search text. */
  lemma SearchStep(things: seq<Thing>, category: Option<Category>, query: string, contains: (string, string) -> bool)
    ensures Filter(things, ShownBy(category, query, contains))
         == if query != [] then Filter(Filter(things, ActiveIn(category)), Matching(query, contains))
            else Filter(things, ActiveIn(category))
  {
    if query != [] {
      FilterTwice(things, ActiveIn(category), Matching(query, contains), ShownBy(category, query, contains));
    } else {
      forall x: Thing ensures ActiveIn(category)(x) == ShownBy(category, query, contains)(x) {
        assert Matching(query, contains)(x);
      }
      FilterSame(things, ActiveIn(category), ShownBy(category, query, contains));
    }
  }

  /** `filteredThings`: the shown Things, in some order sorted by the
      selected option's key (the library sort does not promise stability). */
  method FilteredThings(things: seq<Thing>, category: Option<Category>, searchText: string,
                        option: SortOption, now: Day, contains: (string, string) -> bool)
    returns (r: seq<Thing>)
    ensures multiset(r) == multiset(Filter(things, ShownBy(category, searchText, contains)))
    ensures SortedBy(r, KeyFor(option, now))
  {
    var filtered := Active(things);
    if category.Some? {
      filtered := Filter(filtered, InCategory(category));
    }
    CategoryStep(things, category);
    if searchText != [] {
      filtered := Filter(filtered, Matching(searchText, contains));
    }
    SearchStep(things, category, searchText, contains);
    assert filtered == Filter(things, ShownBy(category, searchText, contains));
    r := SortBy(filtered, KeyFor(option, now));
    SortBySorted(filtered, KeyFor(option, now));
  }

  /** Under "Needs Attention First" the list runs needs-attention, upcoming,
      on-track, no-data. */
  lemma NeedsAttentionFirstOrder(r: seq<Thing>, now: Day)
    requires SortedBy(r, KeyFor(NeedsAttentionFirst, now))
    ensures forall i, j :: 0 <= i < j < |r| ==> StatusRank(Status(r[i], now)) <= StatusRank(Status(r[j], now))
  {
    forall i, j | 0 <= i < j < |r| ensures StatusRank(Status(r[i], now)) <= StatusRank(Status(r[j], now)) {
      assert KeyLe(KeyFor(NeedsAttentionFirst, now)(r[i]), KeyFor(NeedsAttentionFirst, now)(r[j]));
      KeyLeSingle(StatusRank(Status(r[i], now)), StatusRank(Status(r[j], now)));
    }
  }

  /** Under "Recently Done" the most recently done Thing comes first, and
      Things never done come after every Thing that has been. */
  lemma RecentlyDoneOrder(r: seq<Thing>, now: Day)
    requires SortedBy(r, KeyFor(RecentlyDone, now))
    ensures forall i, j :: 0 <= i < j < |r| && r[j].events != [] ==>
      r[i].events != [] && LastEvent(r[i].events).value.timestamp >= LastEvent(r[j].events).value.timestamp
  {
    forall i, j | 0 <= i < j < |r| && r[j].events != []
      ensures r[i].events != [] && LastEvent(r[i].events).value.timestamp >= LastEvent(r[j].events).value.timestamp
    {
      var a, b := KeyFor(RecentlyDone, now)(r[i]), KeyFor(RecentlyDone, now)(r[j]);
      assert KeyLe(a, b);
      var tj := LastEvent(r[j].events).value.timestamp;
      assert b == [0, -tj];
      if r[i].events != [] {
        var ti := LastEvent(r[i].events).value.timestamp;
        assert a == [0, -ti];
        assert a[1..] == [-ti] && b[1..] == [-tj];
        KeyLeSingle(-ti, -tj);
      }
    }
  }

  /** Under "By Category" the list runs Health, Home, Life Admin, Personal,
      Relationships, Training. */
  lemma ByCategoryOrder(r: seq<Thing>, now: Day)
    requires SortedBy(r, KeyFor(ByCategory, now))
    ensures forall i, j :: 0 <= i < j < |r| ==> CategoryRank(r[i].category) <= CategoryRank(r[j].category)
  {
    forall i, j | 0 <= i < j < |r| ensures CategoryRank(r[i].category) <= CategoryRank(r[j].category) {
      assert KeyLe(KeyFor(ByCategory, now)(r[i]), KeyFor(ByCategory, now)(r[j]));
      RawValueOrder(r[i].category, r[j].category);
    }
  }

  /** `TrashItemCard.daysRemaining`: days until the retention window ends,
      never negative; zero for a Thing the startup sweep at `now` would
      remove, so a Thing still showing days left survives the sweep. */
  function DaysRemaining(t: Thing, now: Day): (r: int)
    ensures r >= 0
    ensures t.deletedAt.None? ==> r == 0
    ensures Expired(t, now) ==> r == 0
    ensures t.isDeleted && r > 0 ==> !Expired(t, now)
    ensures t.deletedAt.Some? && t.deletedAt.value <= now ==> r <= TrashRetentionDays
  {
    match t.deletedAt
    case None => 0
    case Some(deletedAt) =>
      var days := deletedAt + TrashRetentionDays - now;
      if days > 0 then days else 0
  }
}
