/** Series of dated values, joined from what each day contributes. */
module Series {
  import opened Prelude

  datatype Dated<+T> = Dated(date: int, value: T)

  predicate Rising(days: seq<int>) {
    forall i, j | 0 <= i < j < |days| :: days[i] < days[j]
  }

  predicate RisingPoints<T>(ps: seq<Dated<T>>) {
    forall i, j | 0 <= i < j < |ps| :: ps[i].date < ps[j].date
  }

  /** What each day contributes: one point of that day, or nothing. */
  predicate Daily<T(==)>(days: seq<int>, parts: seq<seq<Dated<T>>>) {
    |parts| == |days| && forall k | 0 <= k < |days| :: |parts[k]| <= 1 && forall p <- parts[k] :: p.date == days[k]
  }

  function Joined<T>(parts: seq<seq<Dated<T>>>): seq<Dated<T>> {
    if parts == [] then [] else Joined(DropLast(parts)) + Last(parts)
  }

  lemma JoinOneMore<T>(parts: seq<seq<Dated<T>>>, k: nat)
    requires k < |parts|
    ensures Joined(parts[..k + 1]) == Joined(parts[..k]) + parts[k]
  {
    assert DropLast(parts[..k + 1]) == parts[..k];
  }

  lemma AppendRises<T>(before: seq<Dated<T>>, part: seq<Dated<T>>, d: int)
    requires RisingPoints(before) && |part| <= 1
    requires (forall p <- before :: p.date < d) && forall p <- part :: p.date == d
    ensures RisingPoints(before + part)
  {
    assert forall i | 0 <= i < |before| :: before[i] in before;
    assert forall i | 0 <= i < |part| :: part[i] in part;
  }

  /** Joined in rising order of days, the series rises, and its points are exactly those contributed. */
  lemma {:induction false} JoinedMeans<T(!new)>(days: seq<int>, parts: seq<seq<Dated<T>>>)
    requires Rising(days) && Daily(days, parts)
    ensures RisingPoints(Joined(parts))
    ensures forall p :: p in Joined(parts) <==> exists k :: 0 <= k < |days| && p in parts[k]
  {
    if parts != [] {
      var n, rest := |parts| - 1, DropLast(parts);
      JoinedMeans(DropLast(days), rest);
      assert forall k | 0 <= k < n :: rest[k] == parts[k];
      forall p <- Joined(rest)
        ensures p.date < days[n]
      {
        var k :| 0 <= k < n && p in rest[k];
      }
      AppendRises(Joined(rest), parts[n], days[n]);
    }
  }
}
