/** The question bank: its records and the pure queries over it that
    `InterviewPractice` uses. */
module Bank {
  import opened Errors

  /** One question record: `{"id", "question", "answer", "category"}`. */
  datatype Question = Question(id: string, question: string, answer: string, category: string)

  /** The category a new record gets: `category or "general"`, so both
      `None` and the empty string fall back to "general". */
  function CategoryOrDefault(category: Option<string>): (c: string)
    ensures c != ""
    ensures category.Some? && category.value != "" ==> c == category.value
    ensures category.None? || category.value == "" ==> c == "general"
  {
    match category
    case Some(name) => if name != "" then name else "general"
    case None => "general"
  }

  /** The shape of `str(uuid.uuid4())[:8]`: eight lower-case hexadecimal digits. */
  predicate IsShortUuid(id: string) {
    |id| == 8 && forall i :: 0 <= i < |id| ==> ('0' <= id[i] <= '9' || 'a' <= id[i] <= 'f')
  }

  /** The records of `qs` whose category is `category`, in bank order. */
  function Filter(qs: seq<Question>, category: string): (r: seq<Question>)
    ensures |r| <= |qs|
    ensures forall q :: q in r <==> q in qs && q.category == category
  {
    if qs == [] then []
    else (if qs[0].category == category then [qs[0]] else []) + Filter(qs[1..], category)
  }

  /** Filtering commutes with concatenation; with the one-record case this
      pins `Filter` down as "keep the matching records, in order". */
  lemma {:induction false} FilterAppend(a: seq<Question>, b: seq<Question>, category: string)
    ensures Filter(a + b, category) == Filter(a, category) + Filter(b, category)
  {
    if a == [] {
      assert a + b == b;
    } else {
      assert (a + b)[1..] == a[1..] + b;
      FilterAppend(a[1..], b, category);
    }
  }

  /** Filtering for a category the bank does not use yields nothing, and
      filtering for one every record has yields the whole bank. */
  lemma {:induction false} FilterExtremes(qs: seq<Question>, category: string)
    ensures (forall i :: 0 <= i < |qs| ==> qs[i].category != category) ==> Filter(qs, category) == []
    ensures (forall i :: 0 <= i < |qs| ==> qs[i].category == category) ==> Filter(qs, category) == qs
  {
    if qs != [] {
      var tail := qs[1..];
      assert forall i :: 0 <= i < |tail| ==> tail[i] == qs[i + 1];
      FilterExtremes(tail, category);
      assert qs == [qs[0]] + tail;
    }
  }

  /** Position of the first record whose id is `id`, as
      `next(q for q in questions if q["id"] == id)` finds it. */
  function FirstIndexOf(qs: seq<Question>, id: string): (r: Option<nat>)
    ensures r.Some? ==> r.value < |qs| && qs[r.value].id == id
    ensures r.Some? ==> forall j :: 0 <= j < r.value ==> qs[j].id != id
    ensures r.None? <==> forall j :: 0 <= j < |qs| ==> qs[j].id != id
  {
    if qs == [] then None
    else if qs[0].id == id then Some(0)
    else match FirstIndexOf(qs[1..], id)
      case None => None
      case Some(k) => Some(k + 1)
  }

  /** Python's `candidates[idx]` after the guard
      `if idx is None or idx >= len(candidates): raise ValueError`:
      a negative `idx` down to `-count` counts from the end, and one below
      that is Python's `IndexError`. The result is the position selected. */
  function SelectIndex(count: nat, idx: Option<int>): (r: Result<nat>)
    ensures r.Ok? <==> idx.Some? && 0 <= idx.value + count && idx.value < count
    ensures r.Ok? ==> r.value < count && (r.value == idx.value || r.value == idx.value + count)
    ensures (idx.None? || idx.value >= count) ==> r == Err(InvalidIndex)
    ensures idx.Some? && idx.value + count < 0 ==> r == Err(IndexOutOfRange)
  {
    match idx
    case None => Err(InvalidIndex)
    case Some(i) =>
      if i >= count then Err(InvalidIndex)
      else if i + count < 0 then Err(IndexOutOfRange)
      else Ok(if i >= 0 then i else count + i)
  }
}
