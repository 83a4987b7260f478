/** The order in which strings are sorted. */
module StringOrder {

  /** a comes before b: the first difference decides, and a prefix comes first. */
  predicate Less(a: string, b: string) {
    b != "" && (a == "" || a[0] < b[0] || (a[0] == b[0] && Less(a[1..], b[1..])))
  }

  lemma {:induction false} LessTrichotomy(a: string, b: string)
    ensures a == b || Less(a, b) || Less(b, a)
    ensures !(Less(a, b) && Less(b, a)) && !Less(a, a)
    decreases |a|
  {
    if a != "" {
      LessTrichotomy(a[1..], a[1..]);
      if b != "" {
        LessTrichotomy(a[1..], b[1..]);
        assert a[0] == b[0] && a[1..] == b[1..] ==> a == [b[0]] + b[1..] == b;
      }
    }
  }

  lemma {:induction false} LessTransitive(a: string, b: string, c: string)
    requires Less(a, b) && Less(b, c)
    ensures Less(a, c)
  {
    if a != "" && a[0] == b[0] == c[0] {
      LessTransitive(a[1..], b[1..], c[1..]);
    }
  }

  /** The strings are equal up to position k, and there a ends, or has the smaller character. */
  predicate FirstDifference(a: string, b: string, k: nat) {
    && k <= |a| && k <= |b| && (forall i :: 0 <= i < k ==> a[i] == b[i])
    && (if k == |a| then k < |b| else k < |b| && a[k] < b[k])
  }

  lemma {:induction false} LessIff(a: string, b: string)
    ensures Less(a, b) <==> exists k: nat :: FirstDifference(a, b, k)
  {
    if a != "" && b != "" && a[0] == b[0] {
      LessIff(a[1..], b[1..]);
      if k: nat :| FirstDifference(a, b, k) {
        assert FirstDifference(a[1..], b[1..], k - 1);
      }
      if k: nat :| FirstDifference(a[1..], b[1..], k) {
        forall i | 0 <= i < k + 1
          ensures a[i] == b[i]
        {
          assert i > 0 ==> a[i] == a[1..][i - 1] && b[i] == b[1..][i - 1];
        }
        assert FirstDifference(a, b, k + 1);
      }
    } else if Less(a, b) {
      assert FirstDifference(a, b, 0);
    }
  }

  ghost predicate Ascending(ids: seq<string>) {
    forall i, j :: 0 <= i < j < |ids| ==> Less(ids[i], ids[j])
  }

  method SortIds(ids: set<string>) returns (sorted: seq<string>)
    ensures Ascending(sorted) && forall id :: id in ids <==> id in sorted
  {
    sorted := [];
    var rest := ids;
    while rest != {}
      invariant rest <= ids && Ascending(sorted)
      invariant forall id :: id in ids <==> id in rest || id in sorted
      invariant forall id, i :: id in rest && 0 <= i < |sorted| ==> Less(sorted[i], id)
      decreases |rest|
    {
      var least := LeastId(rest);
      sorted := sorted + [least];
      rest := rest - {least};
    }
  }

  method LeastId(ids: set<string>) returns (least: string)
    requires ids != {}
    ensures least in ids && forall id :: id in ids && id != least ==> Less(least, id)
  {
    least :| least in ids;
    var rest := ids - {least};
    while rest != {}
      invariant rest <= ids && least in ids
      invariant forall id :: id in ids && id !in rest && id != least ==> Less(least, id)
      decreases |rest|
    {
      var id :| id in rest;
      LessAll(ids, rest, least, id);
      if Less(id, least) {
        least := id;
      }
      rest := rest - {id};
    }
  }

  lemma LessAll(ids: set<string>, rest: set<string>, least: string, id: string)
    requires id in rest && rest <= ids
    requires forall other :: other in ids && other !in rest && other != least ==> Less(least, other)
    ensures Less(id, least) ==> forall other :: other in ids && other !in rest ==> Less(id, other)
    ensures id == least || Less(id, least) || Less(least, id)
  {
    LessTrichotomy(id, least);
    forall other | Less(id, least) && other in ids && other !in rest && other != least
      ensures Less(id, other)
    {
      LessTransitive(id, least, other);
    }
  }
}
