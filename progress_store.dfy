/** hooks/useVideoProgress.ts: the per-course watched set, kept in memory and
    mirrored to localStorage under a namespaced key.  A JavaScript `Set`
    iterates in insertion order, which decides the text `Array.from` writes,
    so the set is held as a sequence without duplicates. */
module VideoProgress {
  import opened Options
  import opened JsonCodec
  import Percent

  const STORAGE_KEY_PREFIX: string := "video_progress_"

  /** The localStorage key of a course's watched set. */
  function StorageKey(courseId: string): (k: string)
    ensures |k| == |STORAGE_KEY_PREFIX| + |courseId|
    ensures k[..|STORAGE_KEY_PREFIX|] == STORAGE_KEY_PREFIX
    ensures k[|STORAGE_KEY_PREFIX|..] == courseId
  {
    STORAGE_KEY_PREFIX + courseId
  }

  /** Distinct courses never share a storage key. */
  lemma StorageKeyInjective(a: string, b: string)
    ensures StorageKey(a) == StorageKey(b) <==> a == b
  {
    if StorageKey(a) == StorageKey(b) {
      assert a == StorageKey(a)[|STORAGE_KEY_PREFIX|..];
    }
  }

  /** Writing one course's entry leaves every other course's entry as it was. */
  lemma OtherCoursesUntouched(storage: map<string, string>, written: string, other: string, text: string)
    requires written != other
    ensures Lookup(storage[StorageKey(written) := text], StorageKey(other)) == Lookup(storage, StorageKey(other))
  {
    StorageKeyInjective(written, other);
  }

  /** `localStorage.getItem(key)`: the stored text, or null when there is none. */
  function Lookup(storage: map<string, string>, key: string): (r: Option<string>)
    ensures r.Some? <==> key in storage
    ensures r.Some? ==> r.value == storage[key]
  {
    if key in storage then Some(storage[key]) else None
  }

  // ---------------------------------------------------------------------
  // An insertion-ordered set of ids
  // ---------------------------------------------------------------------

  ghost predicate NoDuplicates(s: seq<string>)
  {
    forall i, j :: 0 <= i < j < |s| ==> s[i] != s[j]
  }

  function Elements(s: seq<string>): (e: set<string>)
    ensures forall x :: x in e <==> x in s
  {
    set x | x in s
  }

  /** `set.add(x)`: a new id goes to the end, a present one changes nothing. */
  function SetAdd(s: seq<string>, x: string): (r: seq<string>)
    ensures x in r
    ensures |s| <= |r| <= |s| + 1 && r[..|s|] == s
  {
    if x in s then s else s + [x]
  }

  /** After adding, the id is a member, and the members are the old ones plus it. */
  lemma SetAddMembers(s: seq<string>, x: string)
    ensures Elements(SetAdd(s, x)) == Elements(s) + {x}
    ensures forall y :: y != x ==> (y in SetAdd(s, x) <==> y in s)
  {
  }

  /** Adding keeps the ids distinct and grows the size by one exactly when the id is new. */
  lemma SetAddSize(s: seq<string>, x: string)
    requires NoDuplicates(s)
    ensures NoDuplicates(SetAdd(s, x))
    ensures |Elements(SetAdd(s, x))| == |Elements(s)| + (if x in s then 0 else 1)
  {
    DistinctSize(s);
    DistinctSize(SetAdd(s, x));
  }

  /** Adding a present id is a no-op on contents, order and size. */
  lemma SetAddIdempotent(s: seq<string>, x: string)
    ensures SetAdd(SetAdd(s, x), x) == SetAdd(s, x)
    ensures x in s ==> SetAdd(s, x) == s
  {
  }

  /** For distinct ids the set's size is the sequence's length. */
  lemma {:induction false} DistinctSize(s: seq<string>)
    requires NoDuplicates(s)
    ensures |Elements(s)| == |s|
    decreases |s|
  {
    if s != [] {
      var init := s[..|s| - 1];
      DistinctSize(init);
      assert Elements(s) == Elements(init) + {s[|s| - 1]};
      assert s[|s| - 1] !in Elements(init);
    }
  }

  /** Adds every id of `xs` in order, as `new Set(xs)` starting from `acc`. */
  function AddAll(acc: seq<string>, xs: seq<string>): (r: seq<string>)
    decreases |xs|
  {
    if xs == [] then acc else AddAll(SetAdd(acc, xs[0]), xs[1..])
  }

  /** `new Set(xs)`. */
  function SetFrom(xs: seq<string>): (r: seq<string>)
    ensures NoDuplicates(r)
    ensures Elements(r) == Elements(xs)
    ensures NoDuplicates(xs) ==> r == xs
  {
    AddAllMembers([], xs);
    AddAllKeepsDistinct(xs);
    AddAll([], xs)
  }

  /** Building a set gives distinct ids and exactly the ids it was given. */
  lemma {:induction false} AddAllMembers(acc: seq<string>, xs: seq<string>)
    requires NoDuplicates(acc)
    ensures NoDuplicates(AddAll(acc, xs))
    ensures Elements(AddAll(acc, xs)) == Elements(acc) + Elements(xs)
    decreases |xs|
  {
    if xs != [] {
      SetAddSize(acc, xs[0]);
      SetAddMembers(acc, xs[0]);
      AddAllMembers(SetAdd(acc, xs[0]), xs[1..]);
      assert Elements(xs) == {xs[0]} + Elements(xs[1..]);
    }
  }

  /** Building a set from ids that are already distinct keeps them in order. */
  lemma {:induction false} AddAllDistinct(acc: seq<string>, xs: seq<string>)
    requires NoDuplicates(acc + xs)
    ensures AddAll(acc, xs) == acc + xs
    decreases |xs|
  {
    if xs != [] {
      assert xs[0] == (acc + xs)[|acc|];
      assert xs[0] !in acc by {
        forall i | 0 <= i < |acc| ensures acc[i] != xs[0] {
          assert acc[i] == (acc + xs)[i];
        }
      }
      assert SetAdd(acc, xs[0]) + xs[1..] == acc + xs;
      AddAllDistinct(SetAdd(acc, xs[0]), xs[1..]);
    }
  }

  lemma AddAllKeepsDistinct(xs: seq<string>)
    ensures NoDuplicates(xs) ==> AddAll([], xs) == xs
  {
    if NoDuplicates(xs) {
      assert [] + xs == xs;
      AddAllDistinct([], xs);
    }
  }

  /** The one-character strings a string iterates to, as `new Set(someString)` sees it. */
  function CodePoints(s: string): (r: seq<string>)
    ensures |r| == |s|
    ensures forall i :: 0 <= i < |s| ==> r[i] == [s[i]]
  {
    seq(|s|, i requires 0 <= i < |s| => [s[i]])
  }

  // ---------------------------------------------------------------------
  // Load and save
  // ---------------------------------------------------------------------

  /** What the load effect makes of the entry it read: the set to install, or
      None when it keeps the current one (no entry, an empty entry, a text
      JSON.parse rejects, or a value `new Set(...)` throws on, all caught). */
  function Restore(stored: Option<string>): (r: Option<seq<string>>)
    ensures r.Some? ==> NoDuplicates(r.value)
    ensures r.None? <==> stored.None? || stored.value == [] || Decode(stored.value).None?
  {
    match stored
    case None => None
    case Some(text) =>
      if text == [] then None
      else match Decode(text)
        case None => None
        case Some(JNull) => Some([])
        case Some(JString(s)) => Some(SetFrom(CodePoints(s)))
        case Some(JStringArray(xs)) => Some(SetFrom(xs))
  }

  /** The text saved for a set restores that same set, in the same order. */
  lemma RestoreSaved(w: seq<string>)
    requires NoDuplicates(w)
    ensures Restore(Some(EncodeStringArray(w))) == Some(w)
  {
    DecodeEncode(w);
    assert [] + w == w;
    AddAllDistinct([], w);
  }

  /** A stored `null` restores the empty set: `new Set(null)` is empty. */
  lemma RestoreNullClears()
    ensures Restore(Some("null")) == Some([])
  {
    assert "null"[..4] == "null";
    assert SkipWhitespace("null") == "null";
  }

  /** A stored array restores to exactly its ids, whatever duplicates it held. */
  lemma RestoreArrayMembers(text: string, xs: seq<string>)
    requires text != [] && Decode(text) == Some(JStringArray(xs))
    ensures Restore(Some(text)).Some?
    ensures Elements(Restore(Some(text)).value) == Elements(xs)
  {
    AddAllMembers([], xs);
  }

  /** `getProgress(totalVideos)`: 0 for an empty course, otherwise the number
      of watched ids as a rounded percentage of `totalVideos`. */
  function Progress(watchedCount: nat, totalVideos: nat): (r: nat)
    ensures totalVideos == 0 ==> r == 0
    ensures totalVideos > 0 ==>
      2 * totalVideos * r <= 200 * watchedCount + totalVideos < 2 * totalVideos * (r + 1)
    ensures watchedCount <= totalVideos ==> r <= 100
  {
    if totalVideos == 0 then 0
    else
      Percent.RoundedPercentAtMost100(watchedCount, totalVideos);
      Percent.RoundedPercent(watchedCount, totalVideos)
  }

  /** Watching more never lowers the course progress. */
  lemma ProgressMonotone(w1: nat, w2: nat, totalVideos: nat)
    requires w1 <= w2
    ensures Progress(w1, totalVideos) <= Progress(w2, totalVideos)
  {
    if totalVideos > 0 {
      Percent.RoundedPercentMonotone(w1, w2, totalVideos);
    }
  }

  /** All videos watched is 100 %, none is 0 %. */
  lemma ProgressEnds(totalVideos: nat)
    requires totalVideos > 0
    ensures Progress(totalVideos, totalVideos) == 100
    ensures Progress(0, totalVideos) == 0
  {
    Percent.RoundedPercentFull(totalVideos);
    Percent.RoundedPercentZero(totalVideos);
  }

  /** The count is the set's size, not the part of it inside the course: ids
      left over from videos no longer in the course push it past 100. */
  lemma ProgressCanPassHundred()
    ensures Progress(2, 1) == 200
  {
    Percent.RoundedPercentUnique(2, 1, 200);
  }

  // ---------------------------------------------------------------------
  // The hook's state
  // ---------------------------------------------------------------------

  /** One mounted `useVideoProgress(courseId)`: its `watchedVideos` state and
      the device's localStorage. */
  class ProgressHook {
    var courseId: string
    var watched: seq<string>
    var storage: map<string, string>

    ghost predicate Valid()
      reads this
    {
      NoDuplicates(watched)
    }

    /** The watched set's members. */
    function WatchedSet(): (ws: set<string>)
      reads this
      ensures forall x :: x in ws <==> x in watched
    {
      Elements(watched)
    }

    /** First render: `useState(new Set())`, before the load effect has run. */
    constructor (courseId: string, storage: map<string, string>)
      ensures Valid()
      ensures this.courseId == courseId && this.storage == storage && watched == []
    {
      this.courseId := courseId;
      this.storage := storage;
      watched := [];
    }

    /** The load effect: installs the stored set when the entry decodes, and
        otherwise keeps the current set. */
    method Load()
      requires Valid()
      modifies this
      ensures Valid()
      ensures courseId == old(courseId) && storage == old(storage)
      ensures watched == Restore(Lookup(storage, StorageKey(courseId))).GetOr(old(watched))
    {
      var stored := Lookup(storage, StorageKey(courseId));
      if stored.Some? && stored.value != [] {
        var decoded := Restore(stored);
        if decoded.Some? {
          watched := decoded.value;
        }
      }
    }

    /** A render with a different `courseId`: the effect runs again for the new
        key.  The set is not cleared first. */
    method SwitchCourse(newCourseId: string)
      requires Valid()
      modifies this
      ensures Valid()
      ensures courseId == newCourseId && storage == old(storage)
      ensures watched == if newCourseId == old(courseId) then old(watched)
                         else Restore(Lookup(storage, StorageKey(newCourseId))).GetOr(old(watched))
    {
      if newCourseId != courseId {
        courseId := newCourseId;
        Load();
      }
    }

    /** `markAsWatched(videoId)`: adds the id and writes the whole set under
        this course's key and no other. */
    method MarkAsWatched(videoId: string)
      requires Valid()
      modifies this
      ensures Valid()
      ensures courseId == old(courseId)
      ensures watched == SetAdd(old(watched), videoId)
      ensures IsWatched(videoId)
      ensures forall y :: y != videoId ==> (IsWatched(y) <==> old(IsWatched(y)))
      ensures videoId in old(watched) ==> watched == old(watched)
      ensures storage == old(storage)[StorageKey(courseId) := EncodeStringArray(watched)]
    {
      var updated := SetAdd(watched, videoId);
      SetAddSize(watched, videoId);
      SetAddMembers(watched, videoId);
      storage := storage[StorageKey(courseId) := EncodeStringArray(updated)];
      watched := updated;
    }

    /** `isWatched(videoId)`. */
    function IsWatched(videoId: string): (r: bool)
      reads this
      ensures r <==> videoId in WatchedSet()
    {
      videoId in watched
    }

    /** `getProgress(totalVideos)`, from the size of the watched set. */
    function GetProgress(totalVideos: nat): (r: nat)
      requires Valid()
      reads this
      ensures totalVideos == 0 ==> r == 0
      ensures totalVideos > 0 ==>
        2 * totalVideos * r <= 200 * |WatchedSet()| + totalVideos < 2 * totalVideos * (r + 1)
      ensures |WatchedSet()| <= totalVideos ==> r <= 100
    {
      DistinctSize(watched);
      Progress(|watched|, totalVideos)
    }
  }

  /** A second session on the same device, mounted on the storage a first
      session left after marking two videos, loads the same set. */
  method ReloadScenario(courseId: string, v1: string, v2: string)
    returns (saved: seq<string>, loaded: seq<string>)
    ensures loaded == saved
    ensures v1 in loaded && v2 in loaded
    ensures v1 != v2 ==> loaded == [v1, v2]
  {
    var first := new ProgressHook(courseId, map[]);
    first.MarkAsWatched(v1);
    first.MarkAsWatched(v2);
    saved := first.watched;
    RestoreSaved(saved);
    var second := new ProgressHook(courseId, first.storage);
    second.Load();
    loaded := second.watched;
  }

  /** The hook re-rendered with another course whose key holds nothing keeps
      the previous course's ids and saves them, with the new one, under the
      new key; the old key keeps what was saved there. */
  method CarryOverScenario(a: string, b: string, v1: string, v2: string)
    returns (storage: map<string, string>)
    requires a != b && v1 != v2
    ensures StorageKey(a) in storage && StorageKey(b) in storage
    ensures storage[StorageKey(a)] == EncodeStringArray([v1])
    ensures storage[StorageKey(b)] == EncodeStringArray([v1, v2])
  {
    var h := new ProgressHook(a, map[]);
    h.MarkAsWatched(v1);
    assert h.watched == [v1];
    assert StorageKey(b) != StorageKey(a) by {
      StorageKeyInjective(b, a);
    }
    assert StorageKey(b) !in h.storage;
    h.SwitchCourse(b);
    assert h.watched == [v1];
    h.MarkAsWatched(v2);
    assert h.watched == [v1, v2];
    storage := h.storage;
  }
}
