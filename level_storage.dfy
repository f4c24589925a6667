/** The level-progress store: completed levels, unlocked levels (with level 1
    always unlocked) and the interstitial-ad cooldown, kept under three keys
    of a key-value store. Each operation reads a key, checks it, extends the
    list and writes it back. */
module LevelStorage {
  import opened NumericSort

  /** A persisted key as a read sees it. `Absent` covers a missing key and a
      backend that failed the read (the storage wrapper returns null for
      both), and also an empty value, which the wrapper hands back as is but
      every caller's truthiness test treats like null. `Malformed` is a value
      that does not parse: JSON for the level lists, a number for the
      timestamp. */
  datatype Slot<T> = Absent | Malformed | Stored(value: T)

  /** Completing a level below this one unlocks its successor. */
  const MaxProgressionLevel: int := 30

  /** Five minutes in milliseconds. */
  const InterstitialCooldownMs: int := 5 * 60 * 1000

  ghost predicate NoDuplicates(s: seq<int>) {
    forall x :: multiset(s)[x] <= 1
  }

  // ---------------------------------------------------------------------
  // Specification functions: what each read returns and what each
  // operation leaves in the store, as functions of the previous value.

  /** The list `getCompletedLevels` returns: an unparseable or missing value
      falls back to the empty list. */
  function ReadCompleted(slot: Slot<seq<int>>): (r: seq<int>)
    ensures slot.Stored? ==> r == slot.value
    ensures !slot.Stored? ==> r == []
  {
    if slot.Stored? then slot.value else []
  }

  /** The list `getUnlockedLevels` returns. */
  function ReadUnlocked(slot: Slot<seq<int>>): (r: seq<int>)
    ensures 1 in r
    ensures forall x :: x in r <==> x == 1 || (slot.Stored? && x in slot.value)
  {
    match slot
    case Absent => [1]
    case Malformed => [1]
    case Stored(s) =>
      if 1 in s then s
      else
        SortKeepsMembers(s + [1]);
        Sort(s + [1])
  }

  /** The value `getUnlockedLevels` leaves persisted: a missing list becomes
      [1], a list without 1 gets it and is re-sorted, an unparseable one is
      left as it is. */
  function HealUnlocked(slot: Slot<seq<int>>): (r: Slot<seq<int>>)
    ensures r.Stored? ==> r.value == ReadUnlocked(slot)
    ensures r == Malformed <==> slot == Malformed
    ensures slot.Stored? && 1 in slot.value ==> r == slot
    ensures slot.Absent? || (slot.Stored? && 1 !in slot.value) ==> r == Stored(ReadUnlocked(slot))
  {
    match slot
    case Absent => Stored([1])
    case Malformed => Malformed
    case Stored(s) => if 1 in s then slot else Stored(ReadUnlocked(slot))
  }

  /** The completed-levels value after `completeLevel(level)`. */
  function CompletedAfter(slot: Slot<seq<int>>, level: int): (r: Slot<seq<int>>)
    ensures level in ReadCompleted(r)
    ensures level in ReadCompleted(slot) ==> r == slot
    ensures level !in ReadCompleted(slot) ==> r.Stored?
  {
    var list := ReadCompleted(slot);
    if level in list then slot else Stored(list + [level])
  }

  /** The unlocked-levels value after `unlockLevel(level)`. */
  function UnlockedAfter(slot: Slot<seq<int>>, level: int): (r: Slot<seq<int>>)
    ensures level in ReadUnlocked(r)
    ensures !r.Absent?
    ensures r.Stored? ==> 1 in r.value && ReadUnlocked(r) == r.value
  {
    var list := ReadUnlocked(slot);
    if level in list then HealUnlocked(slot) else Stored(list + [level])
  }

  /** The unlocked-levels value after `completeLevel(level)`: only a level
      below the progression limit unlocks its successor; otherwise the key
      is not even read. */
  function UnlockedAfterCompletion(slot: Slot<seq<int>>, level: int): (r: Slot<seq<int>>)
    ensures level < MaxProgressionLevel ==> level + 1 in ReadUnlocked(r)
    ensures level >= MaxProgressionLevel ==> r == slot
  {
    if level < MaxProgressionLevel then UnlockedAfter(slot, level + 1) else slot
  }

  /** `shouldShowInterstitialAd` at time `now`: a missing, zero or
      non-numeric timestamp is falsy and shows the ad. */
  function ShouldShowAd(last: Slot<int>, now: int): (r: bool)
    ensures !last.Stored? ==> r
    ensures last.Stored? && last.value != 0 && now < last.value + InterstitialCooldownMs ==> !r
  {
    match last
    case Absent => true
    case Malformed => true
    case Stored(t) => t == 0 || now - t >= InterstitialCooldownMs
  }

  // ---------------------------------------------------------------------
  // The store itself.

  class ProgressStore {
    var completed: Slot<seq<int>>
    var unlocked: Slot<seq<int>>
    var lastAd: Slot<int>

    constructor (completed0: Slot<seq<int>>, unlocked0: Slot<seq<int>>, lastAd0: Slot<int>)
      ensures completed == completed0 && unlocked == unlocked0 && lastAd == lastAd0
    {
      completed, unlocked, lastAd := completed0, unlocked0, lastAd0;
    }

    method GetCompletedLevels() returns (r: seq<int>)
      ensures r == ReadCompleted(completed)
    {
      match completed
      case Stored(s) => r := s;
      case Absent => r := [];
      case Malformed => r := [];
    }

    method CompleteLevel(level: int)
      modifies this
      ensures completed == CompletedAfter(old(completed), level)
      ensures unlocked == UnlockedAfterCompletion(old(unlocked), level)
      ensures lastAd == old(lastAd)
    {
      var list := GetCompletedLevels();
      if level !in list {
        list := list + [level];
        completed := Stored(list);
      }
      if level < MaxProgressionLevel {
        UnlockLevel(level + 1);
      }
    }

    method GetUnlockedLevels() returns (r: seq<int>)
      modifies this
      ensures r == ReadUnlocked(old(unlocked))
      ensures unlocked == HealUnlocked(old(unlocked))
      ensures completed == old(completed) && lastAd == old(lastAd)
    {
      match unlocked
      case Stored(s) =>
        var list := s;
        if 1 !in list {
          list := list + [1];
          list := Sort(list);
          unlocked := Stored(list);
        }
        r := list;
      case Absent =>
        r := [1];
        unlocked := Stored(r);
      case Malformed =>
        r := [1];
    }

    method UnlockLevel(level: int)
      modifies this
      ensures unlocked == UnlockedAfter(old(unlocked), level)
      ensures completed == old(completed) && lastAd == old(lastAd)
    {
      var list := GetUnlockedLevels();
      if level !in list {
        list := list + [level];
        unlocked := Stored(list);
      }
    }

    method IsLevelCompleted(level: int) returns (b: bool)
      ensures b <==> level in ReadCompleted(completed)
    {
      var list := GetCompletedLevels();
      b := level in list;
    }

    /** Reading the unlocked list may repair and rewrite it. */
    method IsLevelUnlocked(level: int) returns (b: bool)
      modifies this
      ensures b <==> level in ReadUnlocked(old(unlocked))
      ensures unlocked == HealUnlocked(old(unlocked))
      ensures completed == old(completed) && lastAd == old(lastAd)
    {
      var list := GetUnlockedLevels();
      b := level in list;
    }

    /** Removes the two level keys; the ad timestamp stays. */
    method ResetProgress()
      modifies this
      ensures completed == Absent && unlocked == Absent
      ensures lastAd == old(lastAd)
    {
      completed := Absent;
      unlocked := Absent;
    }

    method GetLastInterstitialAdTime() returns (r: Slot<int>)
      ensures r == lastAd
    {
      r := lastAd;
    }

    /** `now` stands for the clock reading taken when the ad is shown. */
    method SaveLastInterstitialAdTime(now: int)
      modifies this
      ensures lastAd == Stored(now)
      ensures completed == old(completed) && unlocked == old(unlocked)
    {
      lastAd := Stored(now);
    }

    method ShouldShowInterstitialAd(now: int) returns (b: bool)
      ensures b == ShouldShowAd(lastAd, now)
    {
      var last := GetLastInterstitialAdTime();
      if !last.Stored? || last.value == 0 {
        return true;
      }
      b := now - last.value >= InterstitialCooldownMs;
    }
  }

  // ---------------------------------------------------------------------
  // Properties of the operations.

  /** Reading the unlocked list twice rewrites nothing the second time and
      returns the same list. */
  lemma HealIsStable(slot: Slot<seq<int>>)
    ensures HealUnlocked(HealUnlocked(slot)) == HealUnlocked(slot)
    ensures ReadUnlocked(HealUnlocked(slot)) == ReadUnlocked(slot)
  {
  }

  /** A repaired list keeps every level it had, gains 1 and is ascending;
      a list that already had 1 is returned as stored. */
  lemma RepairSortsAndKeeps(s: seq<int>)
    ensures 1 !in s ==>
              Ascending(ReadUnlocked(Stored(s))) && multiset(ReadUnlocked(Stored(s))) == multiset(s) + multiset{1}
    ensures 1 in s ==> ReadUnlocked(Stored(s)) == s && HealUnlocked(Stored(s)) == Stored(s)
  {
  }

  /** The list `getUnlockedLevels` returns after `unlockLevel(level)` is the
      list it returned before, with `level` appended at the end when it was
      missing. */
  lemma UnlockAppendsOnce(slot: Slot<seq<int>>, level: int)
    ensures ReadUnlocked(UnlockedAfter(slot, level))
      == if level in ReadUnlocked(slot) then ReadUnlocked(slot) else ReadUnlocked(slot) + [level]
  {
  }

  /** `unlockLevel` is idempotent on the store. */
  lemma UnlockIsIdempotent(slot: Slot<seq<int>>, level: int)
    ensures UnlockedAfter(UnlockedAfter(slot, level), level) == UnlockedAfter(slot, level)
  {
  }

  /** The completed list after `completeLevel(level)` holds `level`, and
      holds it exactly once when it was not there before. */
  lemma CompletionRecordsOnce(slot: Slot<seq<int>>, level: int)
    ensures level in ReadCompleted(CompletedAfter(slot, level))
    ensures level !in ReadCompleted(slot) ==>
      ReadCompleted(CompletedAfter(slot, level)) == ReadCompleted(slot) + [level]
      && multiset(ReadCompleted(CompletedAfter(slot, level)))[level] == 1
    ensures level in ReadCompleted(slot) ==> CompletedAfter(slot, level) == slot
  {
  }

  /** Completing a level twice leaves the store as completing it once. */
  lemma CompleteLevelIsIdempotent(c: Slot<seq<int>>, u: Slot<seq<int>>, level: int)
    ensures CompletedAfter(CompletedAfter(c, level), level) == CompletedAfter(c, level)
    ensures UnlockedAfterCompletion(UnlockedAfterCompletion(u, level), level)
      == UnlockedAfterCompletion(u, level)
  {
  }

  /** After `completeLevel(level)` the unlocked levels are those before,
      plus `level + 1` exactly when `level` is below the progression limit;
      at or above the limit the key is left untouched. */
  lemma CompletionUnlocksNext(u: Slot<seq<int>>, level: int)
    ensures forall x ::
              x in ReadUnlocked(UnlockedAfterCompletion(u, level)) <==>
              x in ReadUnlocked(u) || (level < MaxProgressionLevel && x == level + 1)
    ensures level >= MaxProgressionLevel ==> UnlockedAfterCompletion(u, level) == u
  {
  }

  /** Only completions below the limit unlock a level, and the highest such
      unlock is the limit itself, so when every unlocked level is at most the
      limit, completing any level keeps it that way: levels 31 and above are
      never unlocked through play. */
  lemma ProgressionCeiling(u: Slot<seq<int>>, level: int)
    requires forall x :: x in ReadUnlocked(u) ==> x <= MaxProgressionLevel
    ensures forall x :: x in ReadUnlocked(UnlockedAfterCompletion(u, level)) ==> x <= MaxProgressionLevel
  {
  }

  /** Neither list operation introduces a duplicate. */
  lemma NoDuplicatesKept(c: Slot<seq<int>>, u: Slot<seq<int>>, level: int)
    requires NoDuplicates(ReadCompleted(c))
    requires NoDuplicates(ReadUnlocked(u))
    ensures NoDuplicates(ReadCompleted(CompletedAfter(c, level)))
    ensures NoDuplicates(ReadUnlocked(UnlockedAfter(u, level)))
  {
  }

  /** A stored list without duplicates is still free of them once repaired. */
  lemma RepairKeepsNoDuplicates(s: seq<int>)
    requires NoDuplicates(s)
    ensures NoDuplicates(ReadUnlocked(Stored(s)))
  {
  }

  /** After a reset the next read of the unlocked list persists and returns
      exactly [1], and the completed list reads as empty. */
  lemma ResetRestartsProgress()
    ensures ReadUnlocked(Absent) == [1] && HealUnlocked(Absent) == Stored([1])
    ensures ReadCompleted(Absent) == []
  {
  }

  /** Right after a nonzero timestamp `t` is saved, the ad is held back
      until five minutes have passed. A timestamp of 0 is falsy and never
      holds it back. */
  lemma CooldownAfterSave(t: int, now: int)
    ensures t != 0 ==> (ShouldShowAd(Stored(t), now) <==> now >= t + InterstitialCooldownMs)
    ensures t == 0 ==> ShouldShowAd(Stored(t), now)
  {
  }
}
