/**
 * The listing handlers' query: `countDocuments(filter)` for the total, and
 * `find(filter).limit(limit).skip(limit * (page - 1)).sort(...)` for one page,
 * with `page = Number(req.query.page) || 1`. The order the sort produces is
 * an input: the sequence of all document keys in sort order.
 */
module Listing {
  import opened Js
  import opened Http

  /** The keys, in `order`, whose record is in `m` and passes `keep`. */
  function Select<T>(m: map<string, T>, order: seq<string>, keep: T -> bool): (ids: seq<string>)
    ensures |ids| <= |order|
    ensures forall i :: 0 <= i < |ids| ==> ids[i] in m && keep(m[ids[i]]) && ids[i] in order
    ensures forall k :: k in order && k in m && keep(m[k]) ==> k in ids
  {
    if order == [] then []
    else
      var rest := Select(m, order[1..], keep);
      assert forall k :: k in order[1..] ==> k in order;
      if order[0] in m && keep(m[order[0]]) then [order[0]] + rest else rest
  }

  /** `a` occurs before `b` in `order`. */
  predicate Before(order: seq<string>, a: string, b: string)
  {
    exists p, q :: 0 <= p < q < |order| && order[p] == a && order[q] == b
  }

  /** Dropping the head of an order keeps it free of repeats. */
  lemma DistinctTail(order: seq<string>)
    requires order != [] && Distinct(order)
    ensures Distinct(order[1..]) && order[0] !in order[1..]
  {
    var t := order[1..];
    forall i, j | 0 <= i < j < |t| ensures t[i] != t[j] {
      assert t[i] == order[i + 1] && t[j] == order[j + 1];
    }
    forall i | 0 <= i < |t| ensures t[i] != order[0] {
      assert t[i] == order[i + 1];
    }
  }

  /** An order pair of the tail is one of the whole order. */
  lemma BeforeInTail(order: seq<string>, a: string, b: string)
    requires order != [] && Before(order[1..], a, b)
    ensures Before(order, a, b)
  {
    var p, q :| 0 <= p < q < |order[1..]| && order[1..][p] == a && order[1..][q] == b;
    assert order[p + 1] == a && order[q + 1] == b;
  }

  /** The head comes before every key of the tail. */
  lemma HeadBefore(order: seq<string>, b: string)
    requires order != [] && b in order[1..]
    ensures Before(order, order[0], b)
  {
    var q :| 0 <= q < |order[1..]| && order[1..][q] == b;
    assert order[q + 1] == b;
  }

  /** The selected keys keep the sort order. */
  lemma {:induction false} SelectKeepsOrder<T>(m: map<string, T>, order: seq<string>, keep: T -> bool)
    ensures forall i, j :: 0 <= i < j < |Select(m, order, keep)| ==>
              Before(order, Select(m, order, keep)[i], Select(m, order, keep)[j])
  {
    if order != [] {
      var t := order[1..];
      var rest := Select(m, t, keep);
      SelectKeepsOrder(m, t, keep);
      var ids := Select(m, order, keep);
      if order[0] in m && keep(m[order[0]]) {
        assert ids == [order[0]] + rest;
        forall i, j | 0 <= i < j < |ids| ensures Before(order, ids[i], ids[j]) {
          if i == 0 {
            assert ids[j] == rest[j - 1];
            HeadBefore(order, rest[j - 1]);
          } else {
            assert ids[i] == rest[i - 1] && ids[j] == rest[j - 1];
            BeforeInTail(order, rest[i - 1], rest[j - 1]);
          }
        }
      } else {
        assert ids == rest;
        forall i, j | 0 <= i < j < |ids| ensures Before(order, ids[i], ids[j]) {
          BeforeInTail(order, rest[i], rest[j]);
        }
      }
    }
  }

  /** When the sort lists each key once, so does the selection. */
  lemma {:induction false} SelectDistinct<T>(m: map<string, T>, order: seq<string>, keep: T -> bool)
    requires Distinct(order)
    ensures Distinct(Select(m, order, keep))
  {
    if order != [] {
      var t := order[1..];
      DistinctTail(order);
      SelectDistinct(m, t, keep);
      var rest := Select(m, t, keep);
      var ids := Select(m, order, keep);
      if order[0] in m && keep(m[order[0]]) {
        assert ids == [order[0]] + rest;
        forall i, j | 0 <= i < j < |ids| ensures ids[i] != ids[j] {
          if i == 0 {
            assert ids[j] == rest[j - 1] && rest[j - 1] in t;
          } else {
            assert ids[i] == rest[i - 1] && ids[j] == rest[j - 1];
          }
        }
      }
    }
  }

  /** The documents `countDocuments(filter)` counts. */
  function Matching<T>(m: map<string, T>, keep: T -> bool): set<string>
  {
    set k | k in m && keep(m[k])
  }

  predicate Distinct(order: seq<string>)
  {
    forall i, j :: 0 <= i < j < |order| ==> order[i] != order[j]
  }

  /** `order` lists every document of the collection exactly once. */
  predicate Enumerates<T>(order: seq<string>, m: map<string, T>)
  {
    Distinct(order) && (forall k :: k in m ==> k in order) && (forall i :: 0 <= i < |order| ==> order[i] in m)
  }

  function MatchingIn<T>(m: map<string, T>, order: seq<string>, keep: T -> bool): set<string>
  {
    set k | k in order && k in m && keep(m[k])
  }

  lemma {:induction false} SelectCountsMatchingIn<T>(m: map<string, T>, order: seq<string>, keep: T -> bool)
    requires Distinct(order)
    ensures |Select(m, order, keep)| == |MatchingIn(m, order, keep)|
  {
    if order != [] {
      var h, t := order[0], order[1..];
      assert Distinct(t) by {
        forall i, j | 0 <= i < j < |t| ensures t[i] != t[j] {
          assert t[i] == order[i + 1] && t[j] == order[j + 1];
        }
      }
      SelectCountsMatchingIn(m, t, keep);
      assert h !in t by {
        forall i | 0 <= i < |t| ensures t[i] != h {
          assert t[i] == order[i + 1];
        }
      }
      var head: set<string> := if h in m && keep(m[h]) then {h} else {};
      assert MatchingIn(m, order, keep) == head + MatchingIn(m, t, keep) by {
        assert forall k :: k in order <==> k == h || k in t;
      }
      assert head !! MatchingIn(m, t, keep);
    }
  }

  /** With the sort order listing each document once, the keys selected are
      as many as the documents counted. */
  lemma SelectCountsMatching<T>(m: map<string, T>, order: seq<string>, keep: T -> bool)
    requires Enumerates(order, m)
    ensures |Select(m, order, keep)| == |Matching(m, keep)|
  {
    SelectCountsMatchingIn(m, order, keep);
    assert MatchingIn(m, order, keep) == Matching(m, keep);
  }

  /** `Number(q) || 1`. */
  function PageNumber(q: Option<string>): (p: int)
    ensures p != 0
    ensures NumberOf(q).Int? && NumberOf(q).v != 0 ==> p == NumberOf(q).v
    ensures !(NumberOf(q).Int? && NumberOf(q).v != 0) ==> p == 1
  {
    OrDefault(NumberOf(q), 1)
  }

  /** `Math.ceil(a / b)` for integers. */
  function CeilDiv(a: int, b: int): (q: int)
    requires b != 0
    ensures b > 0 ==> (q - 1) * b < a <= q * b
    ensures b < 0 ==> q * b <= a < (q - 1) * b
  {
    if b > 0 then -((-a) / b) else -(a / (-b))
  }

  function Abs(n: int): nat
  {
    if n < 0 then -n else n
  }

  /** One page of a listing, as the handlers answer it. */
  datatype Page<U> = Page(count: nat, totalCount: nat, page: int, pages: int,
                          items: seq<(string, U)>)

  /** MongoDB refuses a negative skip; the error reaches the error handler
      with no status set. */
  function SkipError(skip: int): JsError
  {
    JsError("MongoServerError", "BSON field 'skip' value must be >= 0, actual value '" + IntText(skip) + "'",
            "", "", Some(51024), [], [], None)
  }

  /** The documents after the first `skip` of `ids`, at most `n` of them
      (a negative limit returns as many as its absolute value). */
  function Window(ids: seq<string>, skip: nat, n: nat): (w: seq<string>)
    ensures |w| <= n
    ensures skip >= |ids| ==> w == []
    ensures skip < |ids| ==> |w| == (if |ids| - skip < n then |ids| - skip else n)
    ensures forall i :: 0 <= i < |w| ==> skip + i < |ids| && w[i] == ids[skip + i]
  {
    if skip >= |ids| then []
    else if |ids| - skip < n then ids[skip..]
    else ids[skip..skip + n]
  }

  /** `limit * (page - 1)`, the number of documents skipped. */
  function SkipOf(limit: int, pageQuery: Option<string>): int
  {
    limit * (PageNumber(pageQuery) - 1)
  }

  /** The records of `ids` shown through `view`, with their keys. */
  function Shown<T, U>(m: map<string, T>, ids: seq<string>, view: T -> U): (items: seq<(string, U)>)
    requires forall i :: 0 <= i < |ids| ==> ids[i] in m
    ensures |items| == |ids|
    ensures forall i :: 0 <= i < |ids| ==> items[i] == (ids[i], view(m[ids[i]]))
  {
    seq(|ids|, i requires 0 <= i < |ids| => (ids[i], view(m[ids[i]])))
  }

  /** The listing of the records of `m` that pass `keep`, shown through
      `view`, with page size `limit`. */
  function Paginate<T, U>(m: map<string, T>, order: seq<string>, keep: T -> bool, view: T -> U,
                          pageQuery: Option<string>, limit: int): (r: Outcome<Page<U>>)
    requires limit != 0
    ensures r.Fail? <==> SkipOf(limit, pageQuery) < 0
    ensures r.Fail? ==> r == Forward(SkipError(SkipOf(limit, pageQuery)))
    ensures r.Ok? ==> r.status == 200 && r.value.page == PageNumber(pageQuery)
    ensures r.Ok? ==> r.value.totalCount == |Matching(m, keep)|
    ensures r.Ok? ==> r.value.pages == CeilDiv(|Matching(m, keep)|, limit)
    ensures r.Ok? ==> r.value.count == |r.value.items| <= Abs(limit)
    ensures r.Ok? ==> r.value.items == Shown(m, Window(Select(m, order, keep), SkipOf(limit, pageQuery), Abs(limit)), view)
    ensures r.Ok? ==> forall i :: 0 <= i < |r.value.items| ==>
              r.value.items[i].0 in m && keep(m[r.value.items[i].0])
              && r.value.items[i].1 == view(m[r.value.items[i].0])
  {
    var skip := SkipOf(limit, pageQuery);
    var total := |Matching(m, keep)|;
    if skip < 0 then Forward(SkipError(skip))
    else
      var ids := Select(m, order, keep);
      var items := Shown(m, Window(ids, skip, Abs(limit)), view);
      Ok(200, Page(|items|, total, PageNumber(pageQuery), CeilDiv(total, limit), items))
  }

  lemma MulLeq(a: int, b: int, c: int)
    requires a <= b && c > 0
    ensures a * c <= b * c
  {
  }

  /** Where page `page` starts among `total` documents, against the page
      count `Math.ceil(total / limit)`. */
  lemma PageStart(total: nat, page: int, limit: int)
    requires limit > 0 && page > 0
    ensures var skip := limit * (page - 1);
            var pages := CeilDiv(total, limit);
            skip >= 0
            && (page < pages ==> skip + limit <= total)
            && (page == pages ==> skip < total)
            && (page > pages ==> skip >= total)
  {
    var pages := CeilDiv(total, limit);
    MulLeq(0, page - 1, limit);
    assert limit * (page - 1) == (page - 1) * limit;
    if page < pages {
      MulLeq(page, pages - 1, limit);
    } else if page > pages {
      MulLeq(pages, page - 1, limit);
    }
  }

  /** With a positive page size and the sort listing each document once,
      the pages before `pages` are full, page `pages` is not empty, and
      every page after it is empty. */
  lemma {:induction false} PagesCoverMatches<T, U>(m: map<string, T>, order: seq<string>, keep: T -> bool,
                                                  view: T -> U, pageQuery: Option<string>, limit: int)
    requires limit > 0 && Enumerates(order, m)
    requires PageNumber(pageQuery) > 0
    ensures Paginate(m, order, keep, view, pageQuery, limit).Ok?
    ensures var p := Paginate(m, order, keep, view, pageQuery, limit).value;
            (p.page < p.pages ==> p.count == limit)
            && (p.page == p.pages ==> 0 < p.count <= limit)
            && (p.page > p.pages ==> p.count == 0)
  {
    var total := |Matching(m, keep)|;
    SelectCountsMatching(m, order, keep);
    PageStart(total, PageNumber(pageQuery), limit);
  }
}
