/** The attempt history `scores`: question id -> attempts in order, and the
    totals `summary` reports over it. */
module Scores {

  /** One attempt record: `{"user", "score", "result"}`. */
  datatype Attempt = Attempt(user: string, score: real, result: bool)

  type History = map<string, seq<Attempt>>

  /** A number of attempts and how many of them were correct. */
  datatype Counts = Counts(total: nat, correct: nat) {
    function Plus(other: Counts): Counts {
      Counts(total + other.total, correct + other.correct)
    }
  }

  /** How many attempts of `v` have a true `result`. */
  function CorrectCount(v: seq<Attempt>): (n: nat)
    ensures n <= |v|
    ensures n == 0 <== forall i :: 0 <= i < |v| ==> !v[i].result
    ensures n == |v| <== forall i :: 0 <= i < |v| ==> v[i].result
  {
    if v == [] then 0 else (if v[0].result then 1 else 0) + CorrectCount(v[1..])
  }

  lemma {:induction false} CorrectCountAppend(v: seq<Attempt>, a: Attempt)
    ensures CorrectCount(v + [a]) == CorrectCount(v) + if a.result then 1 else 0
  {
    if v != [] {
      assert (v + [a])[1..] == v[1..] + [a];
      CorrectCountAppend(v[1..], a);
    }
  }

  function CountsOf(v: seq<Attempt>): Counts {
    Counts(|v|, CorrectCount(v))
  }

  ghost function PickKey(h: History): (k: string)
    requires h != map[]
    ensures k in h
  {
    var k :| k in h; k
  }

  /** The totals over every attempt of every question, in no particular order. */
  ghost function Tally(h: History): (c: Counts)
    ensures c.correct <= c.total
    decreases |h|
  {
    if h == map[] then Counts(0, 0)
    else
      var k := PickKey(h);
      assert |h - {k}| < |h| by {
        assert (h - {k}).Keys == h.Keys - {k};
      }
      CountsOf(h[k]).Plus(Tally(h - {k}))
  }

  /** Removing two distinct keys in either order gives the same map, and
      each removal keeps the other key and shrinks the map. */
  lemma RemoveTwo(h: History, j: string, k: string)
    requires j in h && k in h && j != k
    ensures k in h - {j} && (h - {j})[k] == h[k] && |h - {j}| < |h|
    ensures j in h - {k} && (h - {k})[j] == h[j] && |h - {k}| < |h|
    ensures h - {j} - {k} == h - {k} - {j}
  {
    assert (h - {j}).Keys == h.Keys - {j};
    assert (h - {k}).Keys == h.Keys - {k};
  }

  /** The tally does not depend on which question is counted first. */
  lemma {:induction false} TallyRemove(h: History, k: string)
    requires k in h
    ensures Tally(h) == CountsOf(h[k]).Plus(Tally(h - {k}))
    decreases |h|
  {
    var j := PickKey(h);
    if j != k {
      RemoveTwo(h, j, k);
      TallyRemove(h - {j}, k);
      TallyRemove(h - {k}, j);
    }
  }

  /** `scores.setdefault(qid, []).append(attempt)`. */
  function Record(h: History, qid: string, attempt: Attempt): (h': History)
    ensures h'.Keys == h.Keys + {qid}
    ensures h'[qid] == (if qid in h then h[qid] else []) + [attempt]
    ensures forall k :: k in h && k != qid ==> h'[k] == h[k]
  {
    h[qid := (if qid in h then h[qid] else []) + [attempt]]
  }

  /** Recording an attempt leaves the other questions' histories alone. */
  lemma RecordElsewhere(h: History, qid: string, attempt: Attempt)
    ensures Record(h, qid, attempt) - {qid} == h - {qid}
  {
  }

  /** Recording one attempt adds one to the total and, when the attempt was
      correct, one to the correct count. */
  lemma TallyRecord(h: History, qid: string, attempt: Attempt)
    ensures Tally(Record(h, qid, attempt)) ==
            Tally(h).Plus(Counts(1, if attempt.result then 1 else 0))
  {
    var h' := Record(h, qid, attempt);
    RecordElsewhere(h, qid, attempt);
    TallyRemove(h', qid);
    if qid in h {
      CorrectCountAppend(h[qid], attempt);
      TallyRemove(h, qid);
    } else {
      assert h - {qid} == h;
      assert CorrectCount([attempt]) == if attempt.result then 1 else 0;
    }
  }

  /** A history with a single question counts exactly that question's attempts. */
  lemma TallySingle(h: History, qid: string)
    requires h.Keys == {qid}
    ensures Tally(h) == CountsOf(h[qid])
  {
    assert (h - {qid}).Keys == {};
    assert h - {qid} == map[];
    TallyRemove(h, qid);
    TallyEmpty();
  }

  /** An empty history has no attempts. */
  lemma TallyEmpty()
    ensures Tally(map[]) == Counts(0, 0)
  {
  }
}
