/** The ordering and paging that the query macro generates. */
module Paging {
  import opened Wrappers

  type Field = string
  type Row = map<Field, int>

  datatype Direction = Asc | Desc
  datatype Order = Order(field: Field, direction: Direction)

  datatype Error = DuplicateSort(field: Field) | InvalidPageNumber | InvalidPageSize(size: nat) | OffsetOverflow

  /** What the macro's declaration fixes, after its own validation. */
  datatype Spec = Spec(defaults: seq<Order>, tieBreaker: Option<Order>, maxSize: nat)

  const U64_MAX: nat := 0xFFFF_FFFF_FFFF_FFFF

  // ---------------------------------------------------------------- the effective ordering

  predicate Mentions(orders: seq<Order>, field: Field) {
    exists k :: 0 <= k < |orders| && orders[k].field == field
  }

  predicate NoRepeats(orders: seq<Order>) {
    forall i, j :: 0 <= i < j < |orders| ==> orders[i].field != orders[j].field
  }

  function Requested(spec: Spec, orders: seq<Order>): seq<Order> {
    if orders == [] then spec.defaults else orders
  }

  /** The first field that occurs a second time among the first `n` orders. */
  function FirstRepeat(orders: seq<Order>, n: nat): Option<Field>
    requires n <= |orders|
  {
    if n == 0 then None
    else if FirstRepeat(orders, n - 1).Some? then FirstRepeat(orders, n - 1)
    else if Mentions(orders[..n - 1], orders[n - 1].field) then Some(orders[n - 1].field)
    else None
  }

  /** The ordering that a query gets, ties broken last. */
  function Effective(spec: Spec, orders: seq<Order>): Result<seq<Order>, Error> {
    var requested := Requested(spec, orders);
    match FirstRepeat(requested, |requested|)
    case Some(field) => Err(DuplicateSort(field))
    case None =>
      Ok(if spec.tieBreaker.Some? && !Mentions(requested, spec.tieBreaker.value.field)
         then requested + [spec.tieBreaker.value] else requested)
  }

  /** Field `k` has occurred before, and no field before it has. */
  ghost predicate IsFirstRepeat(asked: seq<Order>, k: int) {
    && 0 <= k < |asked| && (exists i :: 0 <= i < k && asked[i].field == asked[k].field)
    && forall i, j :: 0 <= i < j < k ==> asked[i].field != asked[j].field
  }

  lemma {:induction false} MentionedBefore(orders: seq<Order>, n: nat)
    requires n < |orders|
    ensures Mentions(orders[..n], orders[n].field) <==> exists i :: 0 <= i < n && orders[i].field == orders[n].field
  {
    var before := orders[..n];
    if exists i :: 0 <= i < n && orders[i].field == orders[n].field {
      var i :| 0 <= i < n && orders[i].field == orders[n].field;
      assert before[i] == orders[i];
    }
  }

  /** No field occurs twice among the first `n` orders. */
  ghost predicate Distinct(orders: seq<Order>, n: nat)
    requires n <= |orders|
  {
    forall i, j :: 0 <= i < j < n ==> orders[i].field != orders[j].field
  }

  lemma {:induction false} FirstRepeatIs(orders: seq<Order>, n: nat)
    requires n <= |orders|
    ensures FirstRepeat(orders, n).None? <==> Distinct(orders, n)
    ensures FirstRepeat(orders, n).Some? ==>
              exists k :: IsFirstRepeat(orders, k) && FirstRepeat(orders, n).value == orders[k].field
  {
    hide Mentions;
    if n > 0 {
      FirstRepeatIs(orders, n - 1);
      MentionedBefore(orders, n - 1);
      if FirstRepeat(orders, n - 1).None? && Mentions(orders[..n - 1], orders[n - 1].field) {
        assert IsFirstRepeat(orders, n - 1);
      }
    }
  }

  /** The orders of the request, or the declared defaults if it has none, are refused exactly when they
      repeat a field, and then the first repeated one is named. Otherwise they are the effective ordering,
      followed by the declared tie-breaker exactly if they do not mention its field. */
  lemma {:induction false} EffectiveOrdering(spec: Spec, orders: seq<Order>)
    ensures var asked := if orders == [] then spec.defaults else orders;
            var r := Effective(spec, orders);
            && (r.Ok? <==> forall i, j :: 0 <= i < j < |asked| ==> asked[i].field != asked[j].field)
            && (r.Err? ==> exists k :: IsFirstRepeat(asked, k) && r.error == DuplicateSort(asked[k].field))
            && (r.Ok? ==>
                  r.value == asked +
                    (if spec.tieBreaker.Some?
                        && forall k :: 0 <= k < |asked| ==> asked[k].field != spec.tieBreaker.value.field
                     then [spec.tieBreaker.value] else []))
            && (r.Ok? ==> NoRepeats(r.value))
            && (r.Ok? && spec.tieBreaker.Some? ==> Mentions(r.value, spec.tieBreaker.value.field))
  {
    hide Mentions, FirstRepeat;
    var asked, r := Requested(spec, orders), Effective(spec, orders);
    FirstRepeatIs(asked, |asked|);
    assert asked + [] == asked;
    if spec.tieBreaker.Some? {
      MentionsIff(asked, spec.tieBreaker.value.field);
      if r.Ok? { TieBroken(asked, spec.tieBreaker.value); }
    }
  }

  lemma {:induction false} MentionsIff(orders: seq<Order>, field: Field)
    ensures Mentions(orders, field) <==> !(forall k :: 0 <= k < |orders| ==> orders[k].field != field)
  {
  }

  lemma {:induction false} TieBroken(asked: seq<Order>, order: Order)
    requires NoRepeats(asked)
    ensures !Mentions(asked, order.field) ==> NoRepeats(asked + [order]) && Mentions(asked + [order], order.field)
  {
    assert (asked + [order])[|asked|] == order;
  }

  /** An effective ordering mentions the declared tie-breaker. */
  lemma {:induction false} MentionsTieBreaker(spec: Spec, orders: seq<Order>)
    requires spec.tieBreaker.Some? && Effective(spec, orders).Ok?
    ensures Mentions(Effective(spec, orders).value, spec.tieBreaker.value.field)
  {
    hide Mentions, Effective;
    EffectiveOrdering(spec, orders);
  }

  method ApplyOrders(spec: Spec, orders: seq<Order>) returns (r: Result<seq<Order>, Error>)
    ensures r == Effective(spec, orders)
  {
    var effective := orders;
    if effective == [] {
      effective := spec.defaults;
    }
    var seen: seq<Field> := [];
    for k := 0 to |effective|
      invariant |seen| == k && forall i :: 0 <= i < k ==> seen[i] == effective[i].field
      invariant FirstRepeat(effective, k).None?
    {
      var field := effective[k].field;
      SeenIffMentioned(effective[..k], seen, field);
      if field in seen {
        RepeatStays(effective, k + 1);
        return Err(DuplicateSort(field));
      }
      seen := seen + [field];
    }
    if spec.tieBreaker.Some? {
      SeenIffMentioned(effective, seen, spec.tieBreaker.value.field);
      if spec.tieBreaker.value.field !in seen {
        effective := effective + [spec.tieBreaker.value];
      }
    }
    r := Ok(effective);
  }

  lemma {:induction false} SeenIffMentioned(orders: seq<Order>, seen: seq<Field>, field: Field)
    requires |seen| == |orders| && forall i :: 0 <= i < |orders| ==> seen[i] == orders[i].field
    ensures field in seen <==> Mentions(orders, field)
  {
    if field in seen {
      var i :| 0 <= i < |seen| && seen[i] == field;
      assert orders[i].field == field;
    }
  }

  lemma {:induction false} RepeatStays(orders: seq<Order>, n: nat)
    requires n <= |orders| && FirstRepeat(orders, n).Some?
    ensures FirstRepeat(orders, |orders|) == FirstRepeat(orders, n)
    decreases |orders| - n
  {
    if n < |orders| { RepeatStays(orders, n + 1); }
  }

  // ---------------------------------------------------------------- sorted results

  function Key(row: Row, field: Field): int {
    if field in row then row[field] else 0
  }

  /** Row `a` must come before row `b`. */
  predicate Precedes(a: Row, b: Row, orders: seq<Order>) {
    && orders != []
    && var field := orders[0].field;
       if Key(a, field) == Key(b, field) then Precedes(a, b, orders[1..])
       else if orders[0].direction == Asc then Key(a, field) < Key(b, field)
       else Key(b, field) < Key(a, field)
  }

  /** A list the database may answer an `ORDER BY` with. */
  predicate Sorted(rows: seq<Row>, orders: seq<Order>) {
    forall i, j :: 0 <= i < j < |rows| ==> !Precedes(rows[j], rows[i], orders)
  }

  /** A field that no two of these rows share. */
  predicate UniqueKey(rows: seq<Row>, field: Field) {
    forall i, j :: 0 <= i < j < |rows| ==> Key(rows[i], field) != Key(rows[j], field)
  }

  lemma {:induction false} OneOfTwoPrecedes(a: Row, b: Row, orders: seq<Order>, field: Field)
    requires Mentions(orders, field) && Key(a, field) != Key(b, field)
    ensures Precedes(a, b, orders) || Precedes(b, a, orders)
    decreases |orders|
  {
    if Key(a, orders[0].field) == Key(b, orders[0].field) {
      var k :| 0 <= k < |orders| && orders[k].field == field;
      assert orders[1..][k - 1].field == field;
      OneOfTwoPrecedes(a, b, orders[1..], field);
    }
  }

  /** An ordering that contains a unique key leaves the database no choice. */
  lemma {:induction false} SortedIsUnique(p: seq<Row>, q: seq<Row>, orders: seq<Order>, field: Field)
    requires multiset(p) == multiset(q) && Sorted(p, orders) && Sorted(q, orders)
    requires Mentions(orders, field) && UniqueKey(p, field)
    ensures p == q
    decreases |p|
  {
    hide Sorted, UniqueKey, Mentions;
    assert |multiset(p)| == |p| && |multiset(q)| == |q|;
    if p != [] {
      FirstRowsAgree(p, q, orders, field);
      RestOf(p, orders, field);
      RestOf(q, orders, field);
      SortedIsUnique(p[1..], q[1..], orders, field);
    }
  }

  lemma {:induction false} RestOf(p: seq<Row>, orders: seq<Order>, field: Field)
    requires p != []
    ensures p == [p[0]] + p[1..] && multiset(p[1..]) == multiset(p) - multiset{p[0]}
    ensures Sorted(p, orders) ==> Sorted(p[1..], orders)
    ensures UniqueKey(p, field) ==> UniqueKey(p[1..], field)
  {
    hide Precedes, Key;
    assert p == [p[0]] + p[1..];
  }

  lemma {:induction false} FirstRowsAgree(p: seq<Row>, q: seq<Row>, orders: seq<Order>, field: Field)
    requires multiset(p) == multiset(q) && Sorted(p, orders) && Sorted(q, orders) && p != [] && q != []
    requires Mentions(orders, field) && UniqueKey(p, field)
    ensures p[0] == q[0]
  {
    assert q[0] in multiset(q) && p[0] in multiset(p);
    var i :| 0 <= i < |p| && p[i] == q[0];
    var j :| 0 <= j < |q| && q[j] == p[0];
    if i > 0 {
      OneOfTwoPrecedes(p[0], p[i], orders, field);
    }
  }

  // ---------------------------------------------------------------- pages

  /** Page `page` is the slice of `size` rows at offset `(page - 1) * size`, as LIMIT and OFFSET give it. */
  function Slice(rows: seq<Row>, offset: nat, size: nat): (r: seq<Row>)
    ensures |r| <= size
  {
    if offset >= |rows| then []
    else if |rows| - offset <= size then rows[offset..] else rows[offset..offset + size]
  }

  function TotalPages(total: nat, size: nat): nat
    requires size > 0
  {
    if total == 0 then 0 else (total - 1) / size + 1
  }

  datatype Page = Page(items: seq<Row>, page: nat, size: nat, total: nat, totalPages: nat)

  function ValidatedPaging(spec: Spec, page: nat, size: nat): Result<(), Error> {
    if page == 0 then Err(InvalidPageNumber)
    else if size == 0 || size > spec.maxSize then Err(InvalidPageSize(size))
    else Ok(())
  }

  /** The offset in 64-bit and then in platform arithmetic. */
  function Offset(page: nat, size: nat, usizeMax: nat): Result<nat, Error>
    requires page > 0
  {
    if size > usizeMax then Err(OffsetOverflow)
    else if (page - 1) * size > U64_MAX || (page - 1) * size > usizeMax then Err(OffsetOverflow)
    else Ok((page - 1) * size)
  }

  /** `answer` is what the database sorts the filtered rows to for this query. */
  function FetchPage(spec: Spec, orders: seq<Order>, page: nat, size: nat, usizeMax: nat, answer: seq<Row>)
    : Result<Page, Error>
  {
    match ValidatedPaging(spec, page, size)
    case Err(e) => Err(e)
    case Ok(_) =>
      match Offset(page, size, usizeMax)
      case Err(e) => Err(e)
      case Ok(offset) =>
        match Effective(spec, orders)
        case Err(e) => Err(e)
        case Ok(_) => Ok(Page(Slice(answer, offset, size), page, size, |answer|, TotalPages(|answer|, size)))
  }

  /** The requests for pages `1`, `2` and so on, each answered by its own query, are all accepted. */
  ghost predicate AllAccepted(spec: Spec, orders: seq<Order>, size: nat, usizeMax: nat, answers: seq<seq<Row>>) {
    forall k :: 0 <= k < |answers| ==> FetchPage(spec, orders, k + 1, size, usizeMax, answers[k]).Ok?
  }

  /** The items of pages `1` to `n`, one after the other. */
  ghost function Fetched(spec: Spec, orders: seq<Order>, size: nat, usizeMax: nat, answers: seq<seq<Row>>, n: nat)
    : seq<Row>
    requires n <= |answers| && AllAccepted(spec, orders, size, usizeMax, answers)
  {
    if n == 0 then []
    else
      Fetched(spec, orders, size, usizeMax, answers, n - 1)
      + FetchPage(spec, orders, n, size, usizeMax, answers[n - 1]).value.items
  }

  /** The first `n` rows, as far as there are so many. */
  function FirstRows(rows: seq<Row>, n: nat): seq<Row> {
    if n >= |rows| then rows else rows[..n]
  }

  lemma {:induction false} SliceAfterPrefix(rows: seq<Row>, offset: nat, size: nat)
    ensures FirstRows(rows, offset) + Slice(rows, offset, size) == FirstRows(rows, offset + size)
  {
  }

  lemma {:induction false} SlicesJoin(spec: Spec, orders: seq<Order>, size: nat, usizeMax: nat,
                                      answers: seq<seq<Row>>, rows: seq<Row>, n: nat)
    requires n <= |answers| && AllAccepted(spec, orders, size, usizeMax, answers)
    requires forall k :: 0 <= k < n ==> answers[k] == rows
    ensures Fetched(spec, orders, size, usizeMax, answers, n) == FirstRows(rows, n * size)
  {
    hide Slice, Effective;
    if n > 0 {
      SlicesJoin(spec, orders, size, usizeMax, answers, rows, n - 1);
      SliceAfterPrefix(rows, (n - 1) * size, size);
      assert n * size == (n - 1) * size + size;
      assert answers[n - 1] == rows && FetchPage(spec, orders, n - 1 + 1, size, usizeMax, answers[n - 1]).Ok?;
    } else {
      assert 0 * size == 0;
    }
  }

  lemma {:induction false} Quotient(t: nat, size: nat)
    requires size > 0
    ensures (t / size) * size <= t < (t / size + 1) * size && t / size <= t
  {
    assert t == (t / size) * size + t % size;
    assert (t / size + 1) * size == (t / size) * size + size;
    MultiplyMonotone(1, size, t / size);
  }

  lemma {:induction false} LastPageCovers(total: nat, size: nat)
    requires size > 0
    ensures TotalPages(total, size) * size >= total
    ensures TotalPages(total, size) > 0 ==> (TotalPages(total, size) - 1) * size < total
    ensures TotalPages(total, size) <= total
  {
    if total > 0 { Quotient(total - 1, size); }
  }

  /** Pages partition the result: when the declared tie-breaker is a unique key, however the database
      answers each of the accepted requests under its effective ordering, every page reports the same
      totals, pages `1` to `totalPages` put together are the sorted list, with no gap or repeat, inner
      pages are full and later pages are empty. */
  lemma {:induction false} PagesPartition(spec: Spec, orders: seq<Order>, size: nat, usizeMax: nat, rows: seq<Row>,
                                          answers: seq<seq<Row>>)
    requires AllAccepted(spec, orders, size, usizeMax, answers)
    requires size > 0 && |answers| >= TotalPages(|rows|, size) && Effective(spec, orders).Ok?
    requires spec.tieBreaker.Some? && UniqueKey(rows, spec.tieBreaker.value.field)
    requires Sorted(rows, Effective(spec, orders).value)
    requires forall k :: 0 <= k < |answers| ==>
               multiset(answers[k]) == multiset(rows) && Sorted(answers[k], Effective(spec, orders).value)
    ensures Fetched(spec, orders, size, usizeMax, answers, TotalPages(|rows|, size)) == rows
    ensures forall k :: 0 <= k < |answers| ==>
              var page := FetchPage(spec, orders, k + 1, size, usizeMax, answers[k]).value;
              && page.total == |rows| && page.totalPages == TotalPages(|rows|, size)
              && (k + 1 < page.totalPages ==> |page.items| == size)
              && (k + 1 > page.totalPages ==> page.items == [])
  {
    hide TotalPages, Sorted, UniqueKey, Mentions, Slice, Effective;
    MentionsTieBreaker(spec, orders);
    forall k | 0 <= k < |answers| ensures answers[k] == rows {
      SortedIsUnique(rows, answers[k], Effective(spec, orders).value, spec.tieBreaker.value.field);
    }
    LastPageCovers(|rows|, size);
    SlicesJoin(spec, orders, size, usizeMax, answers, rows, TotalPages(|rows|, size));
    forall k | 0 <= k < |answers|
      ensures var page := FetchPage(spec, orders, k + 1, size, usizeMax, answers[k]).value;
              && page.total == |rows| && page.totalPages == TotalPages(|rows|, size)
              && (k + 1 < page.totalPages ==> |page.items| == size)
              && (k + 1 > page.totalPages ==> page.items == [])
    {
      OnePage(rows, k + 1, size);
    }
  }

  lemma {:induction false} OnePage(rows: seq<Row>, page: nat, size: nat)
    requires page > 0 && size > 0
    ensures var slice := Slice(rows, (page - 1) * size, size);
            && (page > TotalPages(|rows|, size) ==> slice == [])
            && (page < TotalPages(|rows|, size) ==> |slice| == size)
  {
    hide TotalPages;
    LastPageCovers(|rows|, size);
    if page > TotalPages(|rows|, size) {
      MultiplyMonotone(TotalPages(|rows|, size), page - 1, size);
    } else if page < TotalPages(|rows|, size) {
      MultiplyMonotone(page, TotalPages(|rows|, size) - 1, size);
      assert page * size == (page - 1) * size + size;
    }
  }

  lemma {:induction false} MultiplyMonotone(a: nat, b: nat, size: nat)
    requires a <= b
    ensures a * size <= b * size
  {
    assert b * size - a * size == (b - a) * size;
  }

  /** A request is accepted exactly when its numbers are in range, its offset fits and no sort field
      is repeated; nothing that is then computed overflows 64 bits. */
  lemma {:induction false} AcceptedRequestsFit(spec: Spec, orders: seq<Order>, page: nat, size: nat, usizeMax: nat,
                                               answer: seq<Row>)
    requires |answer| <= U64_MAX
    ensures FetchPage(spec, orders, page, size, usizeMax, answer).Ok? <==>
              && page > 0 && 0 < size <= spec.maxSize && size <= usizeMax
              && (page - 1) * size <= usizeMax && (page - 1) * size <= U64_MAX
              && NoRepeats(if orders == [] then spec.defaults else orders)
    ensures FetchPage(spec, orders, page, size, usizeMax, answer).Ok? ==>
              && FetchPage(spec, orders, page, size, usizeMax, answer).value.totalPages <= U64_MAX
              && |FetchPage(spec, orders, page, size, usizeMax, answer).value.items| <= size
  {
    hide Effective;
    EffectiveOrdering(spec, orders);
    if size > 0 { LastPageCovers(|answer|, size); }
  }

  // ---------------------------------------------------------------- what a page holds

  /** Order `k` decides between the rows: it is the first in which they differ. */
  ghost predicate Decides(a: Row, b: Row, orders: seq<Order>, k: nat) {
    && k < |orders| && HaveFields(a, b, orders)
    && a[orders[k].field] != b[orders[k].field]
    && forall j :: 0 <= j < k ==> a[orders[j].field] == b[orders[j].field]
  }

  ghost predicate HaveFields(a: Row, b: Row, orders: seq<Order>) {
    forall k :: 0 <= k < |orders| ==> orders[k].field in a && orders[k].field in b
  }

  /** Of two rows the one precedes that the first deciding order puts first: the smaller one if it is
      ascending, the larger one if it is descending. */
  lemma {:induction false} PrecedesIff(a: Row, b: Row, orders: seq<Order>)
    requires HaveFields(a, b, orders)
    ensures Precedes(a, b, orders) <==>
              exists k: nat :: && Decides(a, b, orders, k)
                               && if orders[k].direction.Asc? then a[orders[k].field] < b[orders[k].field]
                                  else a[orders[k].field] > b[orders[k].field]
    decreases |orders|
  {
    if orders != [] {
      var field, rest := orders[0].field, orders[1..];
      assert HaveFields(a, b, rest);
      if a[field] == b[field] {
        PrecedesIff(a, b, rest);
        forall k: nat ensures Decides(a, b, rest, k) <==> Decides(a, b, orders, k + 1) { DecidesLater(a, b, orders, k); }
        assert !Decides(a, b, orders, 0);
        if exists k: nat :: Decides(a, b, orders, k) && k > 0 {
          var k: nat :| Decides(a, b, orders, k) && k > 0;
          assert Decides(a, b, rest, k - 1);
        }
      } else {
        assert Decides(a, b, orders, 0);
        assert forall k: nat :: Decides(a, b, orders, k) ==> k == 0;
      }
    }
  }

  lemma {:induction false} DecidesLater(a: Row, b: Row, orders: seq<Order>, k: nat)
    requires orders != [] && HaveFields(a, b, orders) && HaveFields(a, b, orders[1..])
    requires a[orders[0].field] == b[orders[0].field]
    ensures Decides(a, b, orders[1..], k) <==> Decides(a, b, orders, k + 1)
  {
    assert forall j :: 0 < j < |orders| ==> orders[j] == orders[1..][j - 1];
  }

  /** The page count is the least that has room for all rows. */
  predicate IsPageCount(count: nat, total: nat, size: nat) {
    count * size >= total && forall fewer: nat :: fewer < count ==> fewer * size < total
  }

  lemma {:induction false} TotalPagesLeast(total: nat, size: nat)
    requires size > 0
    ensures IsPageCount(TotalPages(total, size), total, size)
  {
    hide TotalPages;
    LastPageCovers(total, size);
    forall fewer: nat | fewer < TotalPages(total, size) ensures fewer * size < total {
      MultiplyMonotone(fewer, TotalPages(total, size) - 1, size);
    }
  }

  /** The rows of a page are those behind the `offset` first ones, `size` of them as far as there are so many. */
  ghost predicate IsPage(items: seq<Row>, answer: seq<Row>, offset: nat, size: nat) {
    && |items| <= size && (|items| < size ==> offset + |items| >= |answer|)
    && forall k :: 0 <= k < |items| ==> offset + k < |answer| && items[k] == answer[offset + k]
  }

  lemma {:induction false} SliceIsPage(answer: seq<Row>, offset: nat, size: nat)
    ensures IsPage(Slice(answer, offset, size), answer, offset, size)
  {
  }

  /** Which of its faults a request is refused for; a page that is answered reports what was asked for, the
      number of rows and the page count. */
  lemma {:induction false} PageAnswers(spec: Spec, orders: seq<Order>, page: nat, size: nat, usizeMax: nat, answer: seq<Row>)
    ensures var r := FetchPage(spec, orders, page, size, usizeMax, answer);
            if page == 0 then r == Err(InvalidPageNumber)
            else if size == 0 || size > spec.maxSize then r == Err(InvalidPageSize(size))
            else if size > usizeMax || Skips(page, size) > usizeMax || Skips(page, size) > U64_MAX then r == Err(OffsetOverflow)
            else if Effective(spec, orders).Err? then r == Err(Effective(spec, orders).error)
            else
              && r.Ok? && r.value.page == page && r.value.size == size && r.value.total == |answer|
              && IsPageCount(r.value.totalPages, |answer|, size)
              && IsPage(r.value.items, answer, Skips(page, size), size)
  {
    hide Effective, Slice, TotalPages, IsPage, IsPageCount;
    if page > 0 && size > 0 {
      TotalPagesLeast(|answer|, size);
      SliceIsPage(answer, Skips(page, size), size);
    }
  }

  /** The rows on the pages before this one, when they are full. */
  function Skips(page: nat, size: nat): nat
    requires page > 0
  {
    (page - 1) * size
  }
}
