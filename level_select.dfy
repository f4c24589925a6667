/** The home screen's level grid: one entry per level with whether it is
    unlocked and completed, derived from the two stored lists, and the guard
    that lets only unlocked levels open a game. */
module LevelSelect {
  import opened LevelStorage

  /** Number of levels the grid shows. */
  const TotalLevels: int := 200

  /** One grid entry. The source leaves `completed` undefined before the
      first load; its only reader treats that as false. */
  datatype Level = Level(id: int, unlocked: bool, completed: bool)

  /** What pressing an entry does. */
  datatype Press = Ignored | OpenGame(levelId: int)

  /** The grid before anything has been read from storage. */
  function InitialLevels(): (r: seq<Level>)
    ensures |r| == TotalLevels
    ensures forall i :: 0 <= i < |r| ==> r[i].id == i + 1
    ensures forall l :: l in r ==> (l.unlocked <==> l.id == 1) && !l.completed
  {
    seq(TotalLevels, i => Level(i + 1, i == 0, false))
  }

  /** The grid built from the lists `getUnlockedLevels` and
      `getCompletedLevels` returned; the two flags are independent. */
  function LoadedLevels(unlocked: seq<int>, completed: seq<int>): (r: seq<Level>)
    ensures |r| == TotalLevels
    ensures forall i :: 0 <= i < |r| ==> r[i].id == i + 1
    ensures forall l :: l in r ==> (l.unlocked <==> l.id in unlocked) && (l.completed <==> l.id in completed)
  {
    seq(TotalLevels, i => Level(i + 1, i + 1 in unlocked, i + 1 in completed))
  }

  /** A locked entry ignores the press; an unlocked one opens its game. */
  function HandleLevelPress(level: Level): (p: Press)
    ensures p == Ignored <==> !level.unlocked
    ensures p.OpenGame? ==> p.levelId == level.id
  {
    if !level.unlocked then Ignored else OpenGame(level.id)
  }

  /** The grid a load produces from the store's two level keys. */
  function GridFromStore(u: Slot<seq<int>>, c: Slot<seq<int>>): (r: seq<Level>)
    ensures |r| == TotalLevels
    ensures forall l :: l in r ==> (l.unlocked <==> l.id in ReadUnlocked(u)) && (l.completed <==> l.id in ReadCompleted(c))
  {
    LoadedLevels(ReadUnlocked(u), ReadCompleted(c))
  }

  /** Every level from 1 to TotalLevels has exactly the entry at index
      `id - 1`, and no two entries share an id. */
  lemma EntriesAreLevelsInOrder(unlocked: seq<int>, completed: seq<int>)
    ensures forall l :: l in LoadedLevels(unlocked, completed) ==> 1 <= l.id <= TotalLevels
    ensures forall i, j ::
              0 <= i < j < TotalLevels ==> LoadedLevels(unlocked, completed)[i].id != LoadedLevels(unlocked, completed)[j].id
  {
  }

  /** Whatever the store holds, level 1 is unlocked once the grid is loaded. */
  lemma FirstLevelAlwaysOpens(u: Slot<seq<int>>, c: Slot<seq<int>>)
    ensures GridFromStore(u, c)[0].unlocked
    ensures HandleLevelPress(GridFromStore(u, c)[0]) == OpenGame(1)
  {
  }

  /** Pressing entry `i` of a loaded grid opens level `i + 1` exactly when the
      stored unlocked list (as read, after repair) holds it. */
  lemma PressOpensOnlyUnlocked(u: Slot<seq<int>>, c: Slot<seq<int>>, i: int)
    requires 0 <= i < TotalLevels
    ensures HandleLevelPress(GridFromStore(u, c)[i])
      == if i + 1 in ReadUnlocked(u) then OpenGame(i + 1) else Ignored
  {
  }

  /** Before the first load only level 1 can be opened. */
  lemma InitialGridOpensOnlyFirst(i: int)
    requires 0 <= i < TotalLevels
    ensures HandleLevelPress(InitialLevels()[i]) == if i == 0 then OpenGame(1) else Ignored
  {
  }

  /** With the unlocked levels at most the progression limit (as a fresh
      store and every completion keep them), entries 31 to 200 stay locked,
      and stay locked after completing any level. */
  lemma LevelsPastCeilingStayLocked(u: Slot<seq<int>>, c: Slot<seq<int>>, level: int, i: int)
    requires forall x :: x in ReadUnlocked(u) ==> x <= MaxProgressionLevel
    requires MaxProgressionLevel <= i < TotalLevels
    ensures HandleLevelPress(GridFromStore(u, c)[i]) == Ignored
    ensures HandleLevelPress(GridFromStore(UnlockedAfterCompletion(u, level), CompletedAfter(c, level))[i]) == Ignored
  {
  }
}
