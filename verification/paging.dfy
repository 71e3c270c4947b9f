/** Cursor pagination as both loops of the migrator drive it: request with
    the cursor, take `results`, stop at the first answer whose `has_more` is
    false, otherwise continue from `next_cursor`. The API is a script: the
    sequence of answers it gives, in order. */
module Paging {
  import opened Notion

  /** The script ends: some answer says there is nothing more. */
  predicate Ends<T>(rs: seq<Response<T>>)
  {
    exists i :: 0 <= i < |rs| && !rs[i].hasMore
  }

  /** The index of the first answer with `has_more` false, where the loop breaks. */
  function FirstFinal<T>(rs: seq<Response<T>>): (k: nat)
    requires Ends(rs)
    ensures k < |rs| && !rs[k].hasMore
    ensures forall j :: 0 <= j < k ==> rs[j].hasMore
  {
    if !rs[0].hasMore then 0
    else
      assert Ends(rs[1..]) by {
        var i :| 0 <= i < |rs| && !rs[i].hasMore;
        assert !rs[1..][i - 1].hasMore;
      }
      1 + FirstFinal(rs[1..])
  }

  /** The answers the loop receives: those up to and including the first final one. */
  function Consumed<T>(rs: seq<Response<T>>): seq<Response<T>>
    requires Ends(rs)
  {
    rs[..FirstFinal(rs) + 1]
  }

  /** The cursor sent with request `j`: none for the first, then the previous answer's `next_cursor`. */
  function CursorBefore<T>(rs: seq<Response<T>>, j: nat): Option<string>
    requires j <= |rs|
  {
    if j == 0 then None else rs[j - 1].nextCursor
  }

  /** All `results`, answer after answer. */
  function AllResults<T>(rs: seq<Response<T>>): seq<T>
  {
    if rs == [] then [] else AllResults(rs[..|rs| - 1]) + rs[|rs| - 1].results
  }

  /** The number of results over all answers. */
  function TotalResults<T>(rs: seq<Response<T>>): nat
  {
    if rs == [] then 0 else TotalResults(rs[..|rs| - 1]) + |rs[|rs| - 1].results|
  }

  /** The consumed answers are exactly a prefix of the script that ends at the
      first `has_more == false` and has `has_more` set everywhere before it. */
  lemma ConsumedShape<T>(rs: seq<Response<T>>)
    requires Ends(rs)
    ensures var c := Consumed(rs);
      0 < |c| <= |rs| && c == rs[..|c|]
      && !c[|c| - 1].hasMore
      && forall j :: 0 <= j < |c| - 1 ==> c[j].hasMore
  {
  }

  /** Accumulating results distributes over splitting the answers. */
  lemma {:induction false} AllResultsAppend<T>(a: seq<Response<T>>, b: seq<Response<T>>)
    ensures AllResults(a + b) == AllResults(a) + AllResults(b)
    decreases |b|
  {
    if b == [] {
      assert a + b == a;
    } else {
      var b' := b[..|b| - 1];
      assert (a + b)[..|a + b| - 1] == a + b';
      AllResultsAppend(a, b');
    }
  }

  /** The accumulated results count is the sum of the answers' page lengths. */
  lemma {:induction false} AllResultsLength<T>(rs: seq<Response<T>>)
    ensures |AllResults(rs)| == TotalResults(rs)
  {
    if rs != [] {
      AllResultsLength(rs[..|rs| - 1]);
    }
  }

  /** One step of a loop over the script: the first k + 1 answers are the first k and answer k. */
  lemma AllResultsStep<T>(rs: seq<Response<T>>, k: nat)
    requires k < |rs|
    ensures AllResults(rs[..k + 1]) == AllResults(rs[..k]) + rs[k].results
    ensures TotalResults(rs[..k + 1]) == TotalResults(rs[..k]) + |rs[k].results|
  {
    assert rs[..k + 1][..k] == rs[..k];
  }
}
