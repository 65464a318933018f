/**
 * The edits GpaSummaryService makes to its history list (gpaHistoryList),
 * each as a function of the list before the edit.
 */
module History {
  import opened Courses
  import opened Summaries
  import opened Sequences

  /**
   * Position of the first entry carrying the id, or -1: where the loops
   * that stop at the first match stop.
   */
  function IndexOfId(h: seq<Summary>, id: int): (k: int)
    ensures -1 <= k < |h|
    ensures k >= 0 ==> h[k].id == id
    ensures forall j :: 0 <= j < |h| && (k < 0 || j < k) ==> h[j].id != id
  {
    if h == [] then -1
    else if h[0].id == id then 0
    else
      var k := IndexOfId(h[1..], id);
      if k < 0 then -1 else k + 1
  }

  predicate HasId(h: seq<Summary>, id: int) {
    exists j :: 0 <= j < |h| && h[j].id == id
  }

  lemma IndexOfIdFound(h: seq<Summary>, id: int)
    ensures IndexOfId(h, id) >= 0 <==> HasId(h, id)
  {
  }

  /** removeIf(summary -> summary.getId() == id). */
  function RemoveId(h: seq<Summary>, id: int): seq<Summary> {
    Filter(h, (s: Summary) => s.id != id)
  }

  /**
   * Every entry with the id is gone, every other entry survives, and
   * nothing new appears.
   */
  lemma RemoveIdMembers(h: seq<Summary>, id: int)
    ensures forall i :: 0 <= i < |RemoveId(h, id)| ==> RemoveId(h, id)[i].id != id && RemoveId(h, id)[i] in h
    ensures forall i :: 0 <= i < |h| && h[i].id != id ==> h[i] in RemoveId(h, id)
  {
  }

  /** Removing an id the list does not hold changes nothing. */
  lemma RemoveIdAbsent(h: seq<Summary>, id: int)
    requires !HasId(h, id)
    ensures RemoveId(h, id) == h
  {
    FilterKeepsAll(h, (s: Summary) => s.id != id);
  }

  /** Survivors keep their relative order: removal works piecewise. */
  lemma RemoveIdAppend(a: seq<Summary>, b: seq<Summary>, id: int)
    ensures RemoveId(a + b, id) == RemoveId(a, id) + RemoveId(b, id)
  {
    FilterAppend(a, b, (s: Summary) => s.id != id);
  }

  /**
   * The update loop: the first entry with the summary's id is set to the
   * summary; the list keeps its length and ids, and no other entry changes.
   */
  function ReplaceFirst(h: seq<Summary>, s: Summary): (r: seq<Summary>)
    ensures |r| == |h|
    ensures forall j :: 0 <= j < |h| ==> r[j].id == h[j].id
    ensures forall j :: 0 <= j < |h| && r[j] != h[j] ==>
      r[j] == s && forall i :: 0 <= i < j ==> h[i].id != s.id
    ensures HasId(h, s.id) ==> r[IndexOfId(h, s.id)] == s
    ensures !HasId(h, s.id) ==> r == h
  {
    var k := IndexOfId(h, s.id);
    if k < 0 then h else h[k := s]
  }

  /** The course-loading loop: the first entry with the id gets the courses. */
  function SetCoursesFirst(h: seq<Summary>, id: int, cs: seq<Course>): (r: seq<Summary>)
    ensures |r| == |h|
    ensures forall j :: 0 <= j < |h| ==> r[j] == h[j] || r[j] == h[j].(courses := cs)
    ensures forall j :: 0 <= j < |h| && r[j] != h[j] ==>
      h[j].id == id && forall i :: 0 <= i < j ==> h[i].id != id
    ensures HasId(h, id) ==> r[IndexOfId(h, id)] == h[IndexOfId(h, id)].(courses := cs)
    ensures !HasId(h, id) ==> r == h
  {
    var k := IndexOfId(h, id);
    if k < 0 then h else h[k := h[k].(courses := cs)]
  }
}
