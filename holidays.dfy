/**
 * Public-holiday import: the mapping of an entry of the public holiday
 * service to a holiday calendar entry, and the client cache that keeps the
 * mapped list in a global and in per-year local storage.
 *
 * The network fetch, the current year and whether local storage accepts a
 * write are inputs; JSON encoding of the stored list is not modelled, only
 * whether a stored value is a well-formed list.
 */
module Holidays {
  import opened Wrappers
  import opened Text
  import opened Types

  // ---------------------------------------------------------------------------
  // Identifier slugs

  predicate IsSlugChar(c: char) { 'a' <= c <= 'z' || '0' <= c <= '9' }

  /** The longest suffix of `s` that starts with a slug character, or []. */
  function SkipRun(s: string): (r: string)
    ensures |r| <= |s| && r == s[|s| - |r|..]
    ensures r == [] || IsSlugChar(r[0])
    ensures forall k :: 0 <= k < |s| - |r| ==> !IsSlugChar(s[k])
  {
    if s == [] || IsSlugChar(s[0]) then s else SkipRun(s[1..])
  }

  /** `.replace(/[^a-z0-9]+/g, "_")`. */
  function Collapse(s: string): (r: string)
    ensures r == [] <==> s == []
    ensures r != [] ==> (r[0] == '_' <==> !IsSlugChar(s[0]))
    ensures forall k :: 0 <= k < |r| ==> IsSlugChar(r[k]) || r[k] == '_'
    ensures forall k :: 0 <= k < |r| - 1 ==> r[k] != '_' || r[k + 1] != '_'
    decreases |s|
  {
    if s == [] then []
    else if IsSlugChar(s[0]) then [s[0]] + Collapse(s[1..])
    else "_" + Collapse(SkipRun(s[1..]))
  }

  /** The slug of a holiday name: lower-cased, then each run outside [a-z0-9] collapsed to one "_". */
  function Slug(s: string): (r: string)
    ensures r == [] <==> s == []
  {
    Collapse(ToLower(s))
  }

  /** Reference definition: every character outside [a-z0-9] becomes "_", then repeated "_" are squeezed to one. */
  function Underscored(s: string): (r: string)
    ensures |r| == |s|
    ensures forall k :: 0 <= k < |s| ==> r[k] == if IsSlugChar(s[k]) then s[k] else '_'
  {
    seq(|s|, k requires 0 <= k < |s| => if IsSlugChar(s[k]) then s[k] else '_')
  }

  function Squeeze(t: string): string
    decreases |t|
  {
    if |t| <= 1 then t
    else if t[0] == '_' && t[1] == '_' then Squeeze(t[1..])
    else [t[0]] + Squeeze(t[1..])
  }

  /** The slug rule collapses exactly as the two-step reference does. */
  lemma {:induction false} CollapseIsSqueezed(s: string)
    ensures Collapse(s) == Squeeze(Underscored(s))
    decreases |s|
  {
    if s == [] {
      assert Underscored(s) == [];
    } else {
      UnderscoredHead(s);
      if IsSlugChar(s[0]) {
        CollapseIsSqueezed(s[1..]);
        SqueezeSlugHead(s[0], Underscored(s[1..]));
      } else {
        CollapseIsSqueezed(SkipRun(s[1..]));
        SqueezeAfterUnderscore(s[1..]);
      }
    }
  }

  /** A "_" absorbs the run of characters outside [a-z0-9] that follows it. */
  lemma {:induction false} SqueezeAfterUnderscore(u: string)
    ensures Squeeze("_" + Underscored(u)) == "_" + Squeeze(Underscored(SkipRun(u)))
    decreases |u|
  {
    if u == [] {
      assert Underscored(u) == [];
    } else {
      UnderscoredHead(u);
      var t := Underscored(u[1..]);
      if IsSlugChar(u[0]) {
        assert ("_" + Underscored(u))[1..] == Underscored(u);
      } else {
        assert "_" + Underscored(u) == "_" + ("_" + t);
        assert ("_" + ("_" + t))[1..] == "_" + t;
        SqueezeAfterUnderscore(u[1..]);
      }
    }
  }

  /** `Underscored` maps the first character and then the rest. */
  lemma UnderscoredHead(s: string)
    requires s != []
    ensures Underscored(s) == [if IsSlugChar(s[0]) then s[0] else '_'] + Underscored(s[1..])
  {
  }

  lemma SqueezeSlugHead(c: char, t: string)
    requires c != '_'
    ensures Squeeze([c] + t) == [c] + Squeeze(t)
  {
    if t != [] {
      assert ([c] + t)[1..] == t;
    }
  }

  // ---------------------------------------------------------------------------
  // Mapping a public-holiday entry

  /** An entry of the public holiday service; a missing name is `None`. */
  datatype NagerEntry = NagerEntry(localName: Option<string>, name: Option<string>, date: string)

  /** `a || b || d` over optional strings: the first one set and non-empty. */
  function FirstSet(a: Option<string>, b: Option<string>, d: string): (r: string)
    ensures a.Some? && a.value != [] ==> r == a.value
    ensures !(a.Some? && a.value != []) && b.Some? && b.value != [] ==> r == b.value
    ensures !(a.Some? && a.value != []) && !(b.Some? && b.value != []) ==> r == d
  {
    if a.Some? && a.value != [] then a.value
    else if b.Some? && b.value != [] then b.value
    else d
  }

  /** `mapFromNager`. */
  function MapFromNager(e: NagerEntry): Holiday {
    var slug := Slug(FirstSet(e.localName, e.name, ""));
    Holiday(
      if slug != [] then slug else e.date,
      FirstSet(e.localName, e.name, "Holiday"),
      e.date,
      "national",
      FirstSet(e.name, e.localName, ""),
      0.0,
      true,
      ["all"],
      Some(FirstSet(e.localName, e.name, "")),
      Some(FirstSet(e.name, e.localName, "")))
  }

  predicate Named(n: Option<string>) { n.Some? && n.value != [] }

  /**
   * The id is the slug of the display name, and the date when the entry has
   * no name; the display name prefers the local name and the English name the
   * service's name; type, multiplier, activity and eligibility are fixed.
   */
  lemma MapFromNagerRule(e: NagerEntry)
    ensures var h := MapFromNager(e);
      && (h.id == e.date || h.id == Slug(FirstSet(e.localName, e.name, "")))
      && (!Named(e.localName) && !Named(e.name) ==> h.id == e.date && h.name == "Holiday")
      && (Named(e.localName) ==> h.id == Slug(e.localName.value) && h.name == e.localName.value)
      && (!Named(e.localName) && Named(e.name) ==> h.id == Slug(e.name.value) && h.name == e.name.value)
      && (Named(e.name) ==> h.englishName == Some(e.name.value) && h.description == e.name.value)
      && (!Named(e.name) && Named(e.localName) ==> h.englishName == Some(e.localName.value) && h.description == e.localName.value)
      && (Named(e.localName) ==> h.localName == Some(e.localName.value))
      && (!Named(e.localName) && Named(e.name) ==> h.localName == Some(e.name.value))
      && (!Named(e.localName) && !Named(e.name) ==> h.localName == Some("") && h.englishName == Some("") && h.description == "")
      && h.date == e.date
      && h.holidayType == "national" && h.allowanceMultiplier == 0.0 && h.isActive
      && h.eligibleReligions == ["all"]
  {
  }

  /** Every character of a slug id is in [a-z0-9] or "_", and no two "_" are adjacent. */
  lemma SlugShape(e: NagerEntry)
    requires Named(e.localName) || Named(e.name)
    ensures var id := MapFromNager(e).id;
      && id != []
      && (forall k :: 0 <= k < |id| ==> IsSlugChar(id[k]) || id[k] == '_')
      && (forall k :: 0 <= k < |id| - 1 ==> id[k] != '_' || id[k + 1] != '_')
  {
  }

  function MapAll(entries: seq<NagerEntry>): (r: seq<Holiday>)
    ensures |r| == |entries| && forall k :: 0 <= k < |r| ==> r[k] == MapFromNager(entries[k])
  {
    seq(|entries|, k requires 0 <= k < |entries| => MapFromNager(entries[k]))
  }

  // ---------------------------------------------------------------------------
  // The client cache

  /** A per-year local-storage value: a well-formed list, or text that does not parse as one. */
  datatype Stored = StoredList(data: seq<Holiday>) | Malformed

  datatype CacheState = CacheState(inBrowser: bool, appHolidays: Option<seq<Holiday>>, storage: map<int, Stored>)

  /** `year || new Date().getFullYear()`. */
  function YearOf(year: Option<int>, currentYear: int): int {
    if year.Some? && year.value != 0 then year.value else currentYear
  }

  /** `getCachedHolidaysForYear`. */
  function Lookup(st: CacheState, year: Option<int>, currentYear: int): seq<Holiday> {
    var y := YearOf(year, currentYear);
    if !st.inBrowser then []
    else if st.appHolidays.Some? then st.appHolidays.value
    else if y in st.storage && st.storage[y].StoredList? then st.storage[y].data
    else []
  }

  /** The state after `hydratePhilippineHolidays`; `fetched` is `None` when the fetch or its parse failed. */
  function AfterHydrate(st: CacheState, y: int, fetched: Option<seq<NagerEntry>>, storageWorks: bool): CacheState {
    if fetched.None? || !st.inBrowser then st
    else
      var mapped := MapAll(fetched.value);
      CacheState(st.inBrowser, Some(mapped), if storageWorks then st.storage[y := StoredList(mapped)] else st.storage)
  }

  function HydrateResult(fetched: Option<seq<NagerEntry>>): (r: seq<Holiday>)
    ensures fetched.None? ==> r == []
    ensures fetched.Some? ==> r == MapAll(fetched.value)
  {
    if fetched.None? then [] else MapAll(fetched.value)
  }

  /**
   * The cache precedence: on the server nothing is cached; in the browser the
   * global list wins over local storage whatever year is asked for, then the
   * stored list for the year, then nothing.
   */
  lemma LookupPrecedence(st: CacheState, year: Option<int>, currentYear: int)
    ensures !st.inBrowser ==> Lookup(st, year, currentYear) == []
    ensures st.inBrowser && st.appHolidays.Some? ==>
      forall other: Option<int> :: Lookup(st, year, currentYear) == Lookup(st, other, currentYear) == st.appHolidays.value
    ensures st.inBrowser && st.appHolidays.None? ==>
      (Lookup(st, year, currentYear) != [] ==>
        var y := YearOf(year, currentYear); y in st.storage && st.storage[y] == StoredList(Lookup(st, year, currentYear)))
    ensures st.inBrowser && st.appHolidays.None? ==>
      var y := YearOf(year, currentYear);
      && (y in st.storage && st.storage[y].StoredList? ==> Lookup(st, year, currentYear) == st.storage[y].data)
      && (!(y in st.storage && st.storage[y].StoredList?) ==> Lookup(st, year, currentYear) == [])
  {
  }

  /**
   * After a successful hydration in the browser every later lookup, for any
   * year, answers the freshly mapped list, whether or not storage accepted it.
   */
  lemma HydrateThenLookup(st: CacheState, y: int, entries: seq<NagerEntry>, storageWorks: bool, year: Option<int>, currentYear: int)
    requires st.inBrowser
    ensures Lookup(AfterHydrate(st, y, Some(entries), storageWorks), year, currentYear) == MapAll(entries)
  {
  }

  /** `ensureHolidaysHydrated`: the cached list when it is non-empty, otherwise a hydration. */
  function EnsureResult(st: CacheState, year: Option<int>, currentYear: int, fetched: Option<seq<NagerEntry>>): seq<Holiday> {
    var cached := Lookup(st, year, currentYear);
    if |cached| > 0 then cached else HydrateResult(fetched)
  }

  function AfterEnsure(st: CacheState, year: Option<int>, currentYear: int, fetched: Option<seq<NagerEntry>>, storageWorks: bool): CacheState {
    if |Lookup(st, year, currentYear)| > 0 then st
    else AfterHydrate(st, YearOf(year, currentYear), fetched, storageWorks)
  }

  /**
   * Cache first: a non-empty cache is answered without a fetch and without
   * a change; after a hydration that fetched a non-empty list in the browser,
   * a second call answers the same list whatever the second fetch would give.
   */
  lemma EnsureCacheFirst(st: CacheState, year: Option<int>, currentYear: int, fetched: Option<seq<NagerEntry>>, again: Option<seq<NagerEntry>>, storageWorks: bool)
    ensures |Lookup(st, year, currentYear)| > 0 ==>
      EnsureResult(st, year, currentYear, fetched) == Lookup(st, year, currentYear)
      && AfterEnsure(st, year, currentYear, fetched, storageWorks) == st
    ensures var st1 := AfterEnsure(st, year, currentYear, fetched, storageWorks);
      var r1 := EnsureResult(st, year, currentYear, fetched);
      st.inBrowser && |r1| > 0 ==>
        EnsureResult(st1, year, currentYear, again) == r1 && AfterEnsure(st1, year, currentYear, again, storageWorks) == st1
  {
    var r1 := EnsureResult(st, year, currentYear, fetched);
    if |Lookup(st, year, currentYear)| == 0 && st.inBrowser && |r1| > 0 {
      HydrateThenLookup(st, YearOf(year, currentYear), fetched.value, storageWorks, year, currentYear);
    }
  }

  class HolidayCache {
    var inBrowser: bool
    var appHolidays: Option<seq<Holiday>>
    var storage: map<int, Stored>

    constructor (inBrowser: bool)
      ensures this.inBrowser == inBrowser && appHolidays == None && storage == map[]
    {
      this.inBrowser := inBrowser;
      appHolidays := None;
      storage := map[];
    }

    function State(): CacheState
      reads this
    {
      CacheState(inBrowser, appHolidays, storage)
    }

    /** `getCachedHolidaysForYear` on the cache's current state. */
    function GetCachedHolidaysForYear(year: Option<int>, currentYear: int): (r: seq<Holiday>)
      reads this
      ensures !inBrowser ==> r == []
      ensures inBrowser && appHolidays.Some? ==> r == appHolidays.value
      ensures inBrowser && appHolidays.None? ==>
        var y := YearOf(year, currentYear);
        r == if y in storage && storage[y].StoredList? then storage[y].data else []
    {
      Lookup(State(), year, currentYear)
    }

    /** `hydratePhilippineHolidays`; the global is set before the storage write that may fail. */
    method HydratePhilippineHolidays(year: Option<int>, currentYear: int, fetched: Option<seq<NagerEntry>>, storageWorks: bool)
      returns (r: seq<Holiday>)
      modifies this
      ensures r == HydrateResult(fetched)
      ensures State() == AfterHydrate(old(State()), YearOf(year, currentYear), fetched, storageWorks)
    {
      if fetched.None? {
        return [];
      }
      var mapped := MapAll(fetched.value);
      if inBrowser {
        appHolidays := Some(mapped);
        if storageWorks {
          storage := storage[YearOf(year, currentYear) := StoredList(mapped)];
        }
      }
      return mapped;
    }

    /** `ensureHolidaysHydrated`. */
    method EnsureHolidaysHydrated(year: Option<int>, currentYear: int, fetched: Option<seq<NagerEntry>>, storageWorks: bool)
      returns (r: seq<Holiday>)
      modifies this
      ensures r == EnsureResult(old(State()), year, currentYear, fetched)
      ensures State() == AfterEnsure(old(State()), year, currentYear, fetched, storageWorks)
    {
      var cached := GetCachedHolidaysForYear(year, currentYear);
      if |cached| > 0 {
        return cached;
      }
      r := HydratePhilippineHolidays(year, currentYear, fetched, storageWorks);
    }
  }
}
