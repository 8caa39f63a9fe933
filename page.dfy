/** The top-level page (src/app/page.tsx, `Page`): the category list for the
    filter box and the request handler of the item details dialog. */
module Page {
  import opened Types
  import opened Seqs

  /** The items `.filter(Boolean)` keeps after the category map: those in
      the active circle with a non-empty category. */
  function HasCategoryIn(activeCircleId: string): Item -> bool {
    (i: Item) => i.circleId == activeCircleId && i.category.Some? && i.category.value != ""
  }

  /** `i => i.category`, read as text (absent as the empty string). */
  function CategoryValue(i: Item): string {
    if i.category.Some? then i.category.value else ""
  }

  /** `items.filter(in circle).map(i => i.category).filter(Boolean)`: the
      non-empty categories of the active circle's items, in store order. */
  function CircleCategoryValues(items: seq<Item>, activeCircleId: string): (r: seq<string>)
    ensures r == Map(Filter(items, HasCategoryIn(activeCircleId)), CategoryValue)
    ensures forall c :: c in r <==>
      c != "" && exists i :: i in items && i.circleId == activeCircleId && i.category == Some(c)
  {
    if items == [] then []
    else
      assert items == [items[0]] + items[1..];
      var rest := CircleCategoryValues(items[1..], activeCircleId);
      var i := items[0];
      var p := HasCategoryIn(activeCircleId);
      FilterCons(i, items[1..], p);
      if p(i) then
        MapCons(i, Filter(items[1..], p), CategoryValue);
        CategoryChainMembers(items, activeCircleId);
        [i.category.value] + rest
      else
        CategoryChainMembers(items, activeCircleId);
        rest
  }

  /** The chain's values are exactly the non-empty categories of the
      circle's items. */
  lemma CategoryChainMembers(items: seq<Item>, activeCircleId: string)
    ensures forall c :: c in Map(Filter(items, HasCategoryIn(activeCircleId)), CategoryValue) <==>
      c != "" && exists i :: i in items && i.circleId == activeCircleId && i.category == Some(c)
  {
    var p := HasCategoryIn(activeCircleId);
    var f := Filter(items, p);
    var m := Map(f, CategoryValue);
    forall c | c in m
      ensures c != "" && exists i :: i in items && i.circleId == activeCircleId && i.category == Some(c)
    {
      var k :| 0 <= k < |m| && m[k] == c;
      assert f[k] in f;
    }
    forall c, i | i in items && i.circleId == activeCircleId && i.category == Some(c) && c != ""
      ensures c in m
    {
      assert p(i);
      var k :| 0 <= k < |f| && f[k] == i;
      assert m[k] == c;
    }
  }

  /** `categories`: each non-empty category used in the active circle, once. */
  function Categories(s: State, activeCircleId: string): (r: seq<string>)
    ensures NoDuplicates(r)
    ensures InFirstOccurrenceOrder(r, CircleCategoryValues(s.items, activeCircleId))
    ensures forall c :: c in r ==> c != ""
    ensures forall c :: c in r <==>
      c != "" && exists i :: i in s.items && i.circleId == activeCircleId && i.category == Some(c)
  {
    Dedup(CircleCategoryValues(s.items, activeCircleId))
  }

  /** `handleRequest(start, end)`: with no item open, an empty date, or the
      user's own item, nothing happens; otherwise one PENDING request by the
      user for the open item is put in front of the requests. `requestId`
      and `createdAt` stand for `uid()` and `now()`. */
  function HandleRequest(s: State, detailsFor: Option<Item>, start: string, end: string,
                         requestId: string, createdAt: int): (r: State)
    ensures detailsFor.None? || start == "" || end == "" || s.user.id == detailsFor.value.ownerId ==> r == s
    ensures r == s.(requests := r.requests)
    ensures detailsFor.Some? && start != "" && end != "" && s.user.id != detailsFor.value.ownerId ==>
      && |r.requests| == |s.requests| + 1
      && r.requests[1..] == s.requests
      && r.requests[0].id == requestId
      && r.requests[0].itemId == detailsFor.value.id
      && r.requests[0].borrowerId == s.user.id
      && r.requests[0].borrowerId != detailsFor.value.ownerId
      && r.requests[0].startDate == start
      && r.requests[0].endDate == end
      && r.requests[0].status == Pending
      && r.requests[0].createdAt == createdAt
  {
    match detailsFor
    case None => s
    case Some(item) =>
      if start == "" || end == "" then s
      else if s.user.id == item.ownerId then s
      else
        var req := Request(requestId, item.id, s.user.id, start, end, Pending, createdAt);
        s.(requests := [req] + s.requests)
  }
}
