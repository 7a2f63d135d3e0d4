/** The id column shared by the two record tables: projecting it out of a
    list of records, the counter derived from it at boot, and the search
    for the first record with a given id. */
module IdTable {
  import opened Values

  /** The ids of `records`, in order (`records.map(r => r.id)`). */
  function Ids<R>(records: seq<R>, id: R -> int): (ids: seq<int>)
    ensures |ids| == |records|
    ensures forall i :: 0 <= i < |records| ==> ids[i] == id(records[i])
  {
    seq(|records|, i requires 0 <= i < |records| => id(records[i]))
  }

  /** No id occurs twice. */
  predicate Unique(ids: seq<int>)
  {
    forall i, j :: 0 <= i < j < |ids| ==> ids[i] != ids[j]
  }

  /** The largest id (`Math.max(...ids)`). */
  function MaxId(ids: seq<int>): (m: int)
    requires ids != []
    ensures m in ids
    ensures forall i :: 0 <= i < |ids| ==> ids[i] <= m
  {
    if |ids| == 1 then ids[0]
    else
      var m := MaxId(ids[..|ids| - 1]);
      if ids[|ids| - 1] > m then ids[|ids| - 1] else m
  }

  /** The id counter computed once at boot: 1 for an empty table, otherwise
      the largest id plus one. */
  function NextId(ids: seq<int>): (n: int)
    ensures ids == [] ==> n == 1
    ensures ids != [] ==> n - 1 in ids
    ensures forall i :: 0 <= i < |ids| ==> ids[i] < n
  {
    if ids == [] then 1 else MaxId(ids) + 1
  }

  /** The position of the first occurrence of `key`, if any. */
  function FirstIndexOf(ids: seq<int>, key: int): (r: Option<nat>)
    ensures r.None? <==> key !in ids
    ensures r.Some? ==> r.value < |ids| && ids[r.value] == key
    ensures r.Some? ==> forall j :: 0 <= j < r.value ==> ids[j] != key
  {
    if ids == [] then None
    else if ids[0] == key then Some(0)
    else
      match FirstIndexOf(ids[1..], key)
      case None => None
      case Some(k) => Some(k + 1)
  }

  /** `records.find(r => r.id === key)` as a position: a key that is not a
      number (`None`, from `parseInt` giving NaN) matches no record. */
  function Find(ids: seq<int>, key: Option<int>): (r: Option<nat>)
    ensures r.None? <==> key.None? || key.value !in ids
    ensures r.Some? ==> r.value < |ids| && key == Some(ids[r.value])
    ensures r.Some? ==> forall j :: 0 <= j < r.value ==> ids[j] != ids[r.value]
  {
    match key
    case None => None
    case Some(k) => FirstIndexOf(ids, k)
  }

  /** In a table without duplicates, the first match is the only one. */
  lemma FindUnique(ids: seq<int>, k: nat)
    requires Unique(ids)
    requires k < |ids|
    ensures Find(ids, Some(ids[k])) == Some(k)
  {
  }

  /** Appending the counter's value advances the counter by exactly one. */
  lemma NextIdAfterAppend(ids: seq<int>)
    ensures NextId(ids + [NextId(ids)]) == NextId(ids) + 1
  {
  }

  /** A new id above every existing one keeps the ids distinct. */
  lemma UniqueAfterAppend(ids: seq<int>, x: int)
    requires Unique(ids)
    requires forall i :: 0 <= i < |ids| ==> ids[i] < x
    ensures Unique(ids + [x])
  {
  }

  /** Appending a record appends its id. */
  lemma IdsAppend<R>(records: seq<R>, id: R -> int, r: R)
    ensures Ids(records + [r], id) == Ids(records, id) + [id(r)]
  {
  }

  /** Replacing a record by one with the same id leaves the ids as they were. */
  lemma IdsUpdate<R>(records: seq<R>, id: R -> int, k: nat, r: R)
    requires k < |records|
    requires id(r) == id(records[k])
    ensures Ids(records[k := r], id) == Ids(records, id)
  {
  }
}
