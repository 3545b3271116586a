/**
 * The last step of `fetch_data`: `sorted(data, key=lambda x:
 * int(x['Effectiveness']), reverse=True)`.  `sorted` computes the key of
 * every record, in list order, before it compares any; the first text that
 * `int()` rejects raises ValueError and nothing is returned.
 */
module Ranking {
  import opened Wrappers
  import opened Text
  import opened Records
  import opened StableSort

  /** `int()` accepts the record's effectiveness text. */
  predicate Parses(rec: Record) {
    ParseInt(rec.effectiveness).Some?
  }

  /**
   * The sort key `int(x['Effectiveness'])`.  A text `int()` rejects never
   * reaches the sort (see Rank); 0 only makes the function total.
   */
  function EffectivenessKey(rec: Record): int {
    match ParseInt(rec.effectiveness)
    case Some(n) => n
    case None => 0
  }

  /** The position of the first element of `s` that fails `ok`, if any. */
  function FirstFailing<T>(s: seq<T>, ok: T -> bool): (r: Option<nat>)
    ensures r.None? <==> forall i :: 0 <= i < |s| ==> ok(s[i])
    ensures r.Some? ==> r.value < |s| && !ok(s[r.value])
                        && forall i :: 0 <= i < r.value ==> ok(s[i])
  {
    if |s| == 0 then None
    else if !ok(s[0]) then Some(0)
    else
      match FirstFailing(s[1..], ok)
      case None => None
      case Some(i) => Some(i + 1)
  }

  /** The position of the first record whose effectiveness `int()` rejects, if any. */
  function FirstUnparsable(data: seq<Record>): (r: Option<nat>)
    ensures r.None? <==> forall i :: 0 <= i < |data| ==> Parses(data[i])
    ensures r.Some? ==> r.value < |data| && !Parses(data[r.value])
                        && forall i :: 0 <= i < r.value ==> Parses(data[i])
  {
    FirstFailing(data, Parses)
  }

  /**
   * The ranking: a ValueError naming the first effectiveness text `int()`
   * rejects, or else the stable sort by integer effectiveness, highest first.
   */
  function Rank(data: seq<Record>): Result<seq<Record>, Error> {
    match FirstUnparsable(data)
    case Some(i) => Err(ValueError(data[i].effectiveness))
    case None => Ok(SortDesc(data, EffectivenessKey))
  }

  /**
   * Ranking raises exactly when some effectiveness text is not an integer
   * literal, and then it names the first such text in list order.
   */
  lemma RankFails(data: seq<Record>)
    ensures Rank(data).Err? <==> exists i :: 0 <= i < |data| && !Parses(data[i])
    ensures Rank(data).Err? ==>
      exists i :: 0 <= i < |data| && Rank(data) == Err(ValueError(data[i].effectiveness))
        && ParseInt(data[i].effectiveness).None?
        && forall k :: 0 <= k < i ==> Parses(data[k])
  {
  }

  /**
   * A successful ranking is a permutation of its input, ordered by the
   * integer value of effectiveness from highest to lowest, with records of
   * equal effectiveness in their input order; and it is the only sequence
   * with these properties.
   */
  lemma RankSorted(data: seq<Record>, out: seq<Record>)
    requires Rank(data) == Ok(out)
    ensures multiset(out) == multiset(data)
    ensures forall i :: 0 <= i < |out| ==> Parses(out[i])
    ensures forall i, j :: 0 <= i < j < |out| ==>
      Parses(out[i]) && Parses(out[j])
      && ParseInt(out[i].effectiveness).value >= ParseInt(out[j].effectiveness).value
    ensures SameOrderPerKey(out, data, EffectivenessKey)
    ensures forall t :: NonIncreasing(t, EffectivenessKey) && SameOrderPerKey(t, data, EffectivenessKey) ==> t == out
  {
    SortDescNonIncreasing(data, EffectivenessKey);
    SortDescStable(data, EffectivenessKey);
    forall i | 0 <= i < |out| ensures Parses(out[i]) {
      assert out[i] in multiset(data);
    }
    forall t | NonIncreasing(t, EffectivenessKey) && SameOrderPerKey(t, data, EffectivenessKey)
      ensures t == out
    {
      SortDescCharacterized(data, t, EffectivenessKey);
    }
  }

  /** Ranking an already ranked list returns it unchanged. */
  lemma RankIdempotent(data: seq<Record>, out: seq<Record>)
    requires Rank(data) == Ok(out)
    ensures Rank(out) == Ok(out)
  {
    RankSorted(data, out);
    SortDescIdempotent(data, EffectivenessKey);
  }
}
