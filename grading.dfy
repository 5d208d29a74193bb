/** How `check_answer` judges a user's answer against the reference answer. */
module Grading {
  import opened Errors
  import opened Text

  /** The threshold `check_answer` uses for the semantic method unless told otherwise. */
  const DefaultThreshold: real := 0.6

  /** What `check_answer` returns: `(result, score)`. */
  datatype Verdict = Verdict(matched: bool, score: real)

  /** The "exact" method: `user.strip().lower() == ref.strip().lower()`. */
  predicate ExactMatch(user: string, ref: string) {
    Lower(Strip(user)) == Lower(Strip(ref))
  }

  /** The "substring" method: `ref.lower() in user.lower() or user.lower() in ref.lower()`. */
  predicate SubstringMatch(user: string, ref: string) {
    Contains(Lower(user), Lower(ref)) || Contains(Lower(ref), Lower(user))
  }

  /** Two strings are equal up to ASCII case. */
  ghost predicate EqualIgnoringCase(a: string, b: string) {
    |a| == |b| && forall i :: 0 <= i < |a| ==> LowerChar(a[i]) == LowerChar(b[i])
  }

  /** "exact" accepts an answer exactly when, once surrounding whitespace is
      removed from both, it equals the reference up to case. */
  lemma ExactMatchMeaning(user: string, ref: string)
    ensures ExactMatch(user, ref) <==> EqualIgnoringCase(Strip(user), Strip(ref))
  {
    var a, b := Strip(user), Strip(ref);
    if EqualIgnoringCase(a, b) {
      assert forall i :: 0 <= i < |a| ==> Lower(a)[i] == Lower(b)[i];
    }
  }

  /** Surrounding whitespace never changes the "exact" verdict. */
  lemma ExactMatchIgnoresPadding(pre: string, user: string, post: string, ref: string)
    requires forall k :: 0 <= k < |pre| ==> IsSpace(pre[k])
    requires forall k :: 0 <= k < |post| ==> IsSpace(post[k])
    ensures ExactMatch(pre + user + post, ref) == ExactMatch(user, ref)
  {
    StripPadded(pre, user, post);
  }

  /** "exact" can equally be read as lower-casing first and stripping second. */
  lemma ExactMatchLowerFirst(user: string, ref: string)
    ensures ExactMatch(user, ref) <==> Strip(Lower(user)) == Strip(Lower(ref))
  {
    StripLowerCommute(user);
    StripLowerCommute(ref);
  }

  /** "substring" is symmetric, accepts an empty answer whatever the
      reference, and accepts the reference itself in any letter case. */
  lemma SubstringMatchProperties(user: string, ref: string)
    ensures SubstringMatch(user, ref) == SubstringMatch(ref, user)
    ensures SubstringMatch("", ref)
    ensures Lower(user) == Lower(ref) ==> SubstringMatch(user, ref)
  {
    assert StartsWith(Lower(ref), Lower(""));
    assert StartsWith(Lower(user), Lower(user));
  }

  /** "substring" accepts exactly when one lower-cased string is a slice of the other. */
  lemma SubstringMatchMeaning(user: string, ref: string)
    ensures SubstringMatch(user, ref) <==>
            (exists i :: OccursAt(Lower(user), Lower(ref), i)) || (exists i :: OccursAt(Lower(ref), Lower(user), i))
  {
    ContainsIff(Lower(user), Lower(ref));
    ContainsIff(Lower(ref), Lower(user));
    if Contains(Lower(user), Lower(ref)) {
      var i :| OccursAt(Lower(user), Lower(ref), i);
      assert SubstringMatch(user, ref);
      assert exists i :: OccursAt(Lower(user), Lower(ref), i);
    } else if Contains(Lower(ref), Lower(user)) {
      var i :| OccursAt(Lower(ref), Lower(user), i);
    }
  }

  /** For answers without surrounding whitespace, "exact" acceptance implies
      "substring" acceptance. */
  lemma ExactImpliesSubstringWhenTrimmed(user: string, ref: string)
    requires Strip(user) == user && Strip(ref) == ref
    requires ExactMatch(user, ref)
    ensures SubstringMatch(user, ref)
  {
    assert StartsWith(Lower(user), Lower(ref));
  }

  /** With surrounding whitespace the two methods are not nested: " c" and
      "c " are accepted by "exact" and rejected by "substring" for every
      visible character c. */
  lemma ExactDoesNotImplySubstring(c: char)
    requires !IsSpace(c)
    ensures ExactMatch([' ', c], [c, ' ']) && !SubstringMatch([' ', c], [c, ' '])
  {
    var user, ref := [' ', c], [c, ' '];
    assert Strip(user) == [c] by {
      assert LeadCount(user) == 1 && TrailCount(user) == 0;
    }
    assert Strip(ref) == [c] by {
      assert LeadCount(ref) == 0 && TrailCount(ref) == 1;
    }
    var u, r := Lower(user), Lower(ref);
    assert u != r && u[0..2] == u && r[0..2] == r by {
      assert u[0] == ' ' && IsSpace(u[0]) && !IsSpace(r[0]);
    }
    ContainsIff(u, r);
    ContainsIff(r, u);
  }

  /** The character facts that keep the two answers of `HashMapExample`
      apart under "substring": the answer is 3 characters shorter than the
      reference, and each of the 4 offsets it could sit at has a mismatch. */
  lemma HashMapAnswersDisjoint(user: string, ref: string)
    requires |user| == 39 && |ref| == 42
    requires user[0] == 'A' && user[2] == 'd'
    requires ref[1] == ' ' && ref[2] == 'k' && ref[3] == 'e'
    ensures !SubstringMatch(user, ref)
  {
    var u, r := Lower(user), Lower(ref);
    if Contains(u, r) {
      ContainsShorter(u, r);
    }
    forall i
      ensures !OccursAt(r, u, i)
    {
      if 0 <= i <= 3 {
        var k := if i == 0 then 2 else 0;
        assert r[i + k] != u[k];
        assert i + |u| <= |r| ==> r[i..i + |u|][k] != u[k];
      }
    }
    ContainsIff(r, u);
  }

  /** A hash-map question: an answer that shares only its opening word with
      the reference fails "substring". The second conclusion, that the
      reference passes "exact" against itself, holds for every string by
      reflexivity; the two literals add nothing to it. */
  lemma HashMapExample(user: string, ref: string)
    requires user == "A data structure mapping keys to values"
    requires ref == "A key-value store with O(1) average lookup"
    ensures !SubstringMatch(user, ref)
    ensures ExactMatch(ref, ref)
  {
    assert |user| == 39 && |ref| == 42;
    assert user[0] == 'A' && user[2] == 'd';
    assert ref[1] == ' ' && ref[2] == 'k' && ref[3] == 'e';
    HashMapAnswersDisjoint(user, ref);
  }

  /** The scoring step of `check_answer` once the reference answer `ref` is
      known: `similarity` is the cosine similarity the embedding model would
      report, and is only looked at by the "semantic" method. */
  function Grade(comparison: string, user: string, ref: string, hasModel: bool,
                 similarity: real, threshold: real): (r: Result<Verdict>)
    ensures r.Ok? <==> comparison in {"exact", "substring"} || (comparison == "semantic" && hasModel)
    ensures comparison == "semantic" && !hasModel ==> r == Err(ModelUnavailable)
    ensures comparison !in {"exact", "substring", "semantic"} ==> r == Err(UnsupportedMethod)
    ensures r.Ok? && comparison != "semantic" ==> r.value.score == if r.value.matched then 1.0 else 0.0
    ensures r.Ok? && comparison == "exact" ==> (r.value.matched <==> ExactMatch(user, ref))
    ensures r.Ok? && comparison == "substring" ==> (r.value.matched <==> SubstringMatch(user, ref))
    ensures r.Ok? && comparison == "semantic" ==>
              r.value.score == similarity && (r.value.matched <==> similarity >= threshold)
  {
    if comparison == "exact" then
      var ok := ExactMatch(user, ref);
      Ok(Verdict(ok, if ok then 1.0 else 0.0))
    else if comparison == "substring" then
      var ok := SubstringMatch(user, ref);
      Ok(Verdict(ok, if ok then 1.0 else 0.0))
    else if comparison == "semantic" then
      if !hasModel then Err(ModelUnavailable)
      else Ok(Verdict(similarity >= threshold, similarity))
    else Err(UnsupportedMethod)
  }
}
