/**
 * The editor's list of levels: an array of level records kept ordered by
 * level, then by round. Each operation takes the array by reference and may
 * replace it with a resized copy, so here it returns the array the caller
 * holds afterwards.
 */
module LevelList {
  import opened Sorting
  import opened LevelData

  /** The comparison delegate of Sort: level first, round within a level. */
  function LevelKey(d: SolitaireLevelData): (k: Key)
    ensures k.major == d.level && k.middle == d.round
  {
    Key(d.level, d.round, 0)
  }

  /** Two records compare as ordered exactly when the level is lower, or equal with a round no higher. */
  lemma LevelKeyOrder(x: SolitaireLevelData, y: SolitaireLevelData)
    ensures KeyLe(LevelKey(x), LevelKey(y)) <==> x.level < y.level || (x.level == y.level && x.round <= y.round)
  {
  }

  /** Orders the entries by level ascending, then by round ascending. */
  method Sort(levelList: array<SolitaireLevelData>)
    modifies levelList
    ensures SortedBy(levelList[..], LevelKey)
    ensures multiset(levelList[..]) == old(multiset(levelList[..]))
  {
    SortByKey(levelList, LevelKey);
  }

  /** Appends an entry to a copy one longer than the list, then sorts the copy. */
  method AddLevelData(levelData: SolitaireLevelData, levelList: array<SolitaireLevelData>)
    returns (resized: array<SolitaireLevelData>)
    ensures fresh(resized) && resized.Length == levelList.Length + 1
    ensures multiset(resized[..]) == multiset(levelList[..]) + multiset{levelData}
    ensures SortedBy(resized[..], LevelKey)
  {
    // Array.Resize copies the old entries into a new array one longer.
    resized := new SolitaireLevelData[levelList.Length + 1](i requires 0 <= i <= levelList.Length reads levelList => if i < levelList.Length then levelList[i] else levelData);
    assert resized[..] == levelList[..] + [levelData];
    Sort(resized);
  }

  /**
   * Shifts the entries after `index` down by one, then drops the last entry.
   * An index at or past the end therefore removes the last entry. A negative
   * index, or an empty list, makes the source throw.
   */
  method DeleteLevelDataAt(index: int, levelList: array<SolitaireLevelData>)
    returns (resized: array<SolitaireLevelData>)
    requires 0 <= index && levelList.Length > 0
    modifies levelList
    ensures var k := if index < levelList.Length then index else levelList.Length - 1;
      resized[..] == old(levelList[..k]) + old(levelList[k + 1..])
    ensures fresh(resized) && resized.Length == levelList.Length - 1
  {
    var j := index + 1;
    while j < levelList.Length
      invariant index + 1 <= j || index >= levelList.Length
      invariant index < levelList.Length ==> index + 1 <= j <= levelList.Length
      invariant index < levelList.Length ==>
        levelList[..] == old(levelList[..index]) + old(levelList[index + 1..j]) + old(levelList[j - 1..])
      invariant index >= levelList.Length ==> levelList[..] == old(levelList[..])
    {
      levelList[j - 1] := levelList[j];
      j := j + 1;
    }
    resized := new SolitaireLevelData[levelList.Length - 1](i requires 0 <= i < levelList.Length - 1 reads levelList => levelList[i]);
    assert resized[..] == levelList[..levelList.Length - 1];
  }
}
