/** The lending lifecycle across operations: the consistency the updaters
    keep, the request and loan transitions as the Requests tab offers them,
    and the two gaps the app leaves open (loans left pointing at a deleted
    item, and more than one active loan per item). */
module Lifecycle {
  import opened Types
  import opened Text
  import opened Seqs
  import opened MyItems
  import opened Requests
  import opened LoanHistory
  import opened MyCircle
  import opened Page
  import opened SeedState

  /** Every request is about an item that exists (deleting an item deletes
      its requests). */
  predicate RequestsReferenceItems(s: State) {
    forall q :: q in s.requests ==> exists i :: i in s.items && i.id == q.itemId
  }

  /** Two items with the same id are the same item. */
  predicate ItemIdsDetermineItems(s: State) {
    forall i, j :: i in s.items && j in s.items && i.id == j.id ==> i == j
  }

  /** Nobody has requested their own item. */
  predicate NoSelfRequests(s: State) {
    forall q, i :: q in s.requests && i in s.items && i.id == q.itemId ==> q.borrowerId != i.ownerId
  }

  /** Items and returns carry at most three photos. */
  predicate PhotosBounded(s: State) {
    && (forall i :: i in s.items ==> |i.photos| <= MaxPhotos)
    && (forall l :: l in s.loans ==> |l.returnPhotos| <= MaxPhotos)
  }

  predicate Valid(s: State) {
    RequestsReferenceItems(s) && ItemIdsDetermineItems(s) && NoSelfRequests(s) && PhotosBounded(s)
  }

  /** The seed is consistent when its two item ids differ. */
  lemma SeedValid(circleId: string, token: string, painterId: string, drillId: string, t1: int, t2: int)
    requires painterId != drillId
    ensures Valid(Seed(circleId, token, painterId, drillId, t1, t2))
  {
    var s := Seed(circleId, token, painterId, drillId, t1, t2);
    assert s.items == [s.items[0], s.items[1]];
  }

  /** Saving an item keeps the state consistent, provided the edited item is
      the stored one and a new item's id is not in use. */
  lemma SaveItemPreservesValid(s: State, editing: Option<Item>, form: ItemForm, activeCircleId: string,
                               newId: string, createdAt: int, toNumber: string -> real)
    requires Valid(s)
    requires editing.Some? ==> editing.value in s.items
    requires editing.None? ==> forall i :: i in s.items ==> i.id != newId
    ensures Valid(SaveItem(s, editing, form, activeCircleId, newId, createdAt, toNumber))
  {
    var r := SaveItem(s, editing, form, activeCircleId, newId, createdAt, toNumber);
    if IsBlank(form.title) {
    } else if editing.None? {
      assert r.items == [r.items[0]] + s.items;
      PrependingItemPreservesValid(s, r, r.items[0]);
    } else {
      var e := editing.value;
      var u := EditedItem(e, form, toNumber);
      assert |u.photos| <= MaxPhotos;
      assert forall k :: 0 <= k < |s.items| ==> r.items[k] == if s.items[k].id == e.id then u else s.items[k];
      ReplacingItemPreservesValid(s, r, e, u);
    }
  }

  /** Putting an item with an unused id in front keeps the state
      consistent. */
  lemma PrependingItemPreservesValid(s: State, r: State, n: Item)
    requires Valid(s)
    requires forall i :: i in s.items ==> i.id != n.id
    requires |n.photos| <= MaxPhotos
    requires r == s.(items := [n] + s.items)
    ensures Valid(r)
  {
  }

  /** Replacing every item that has `e`'s id by one record `u` with the same
      id and owner keeps the state consistent. */
  lemma ReplacingItemPreservesValid(s: State, r: State, e: Item, u: Item)
    requires Valid(s) && e in s.items
    requires u.id == e.id && u.ownerId == e.ownerId && |u.photos| <= MaxPhotos
    requires r == s.(items := r.items) && |r.items| == |s.items|
    requires forall k :: 0 <= k < |s.items| ==>
      r.items[k] == if s.items[k].id == e.id then u else s.items[k]
    ensures Valid(r)
  {
    forall j | j in r.items
      ensures j.id == e.id ==> j == u
      ensures j.id != e.id ==> j in s.items
    {
      var k :| 0 <= k < |r.items| && r.items[k] == j;
      assert s.items[k] in s.items;
    }
    forall i | i in s.items ensures exists j :: j in r.items && j.id == i.id {
      var k :| 0 <= k < |s.items| && s.items[k] == i;
      assert r.items[k] in r.items;
    }
  }

  /** Deleting an item keeps the state consistent: its requests go with it. */
  lemma DeleteItemPreservesValid(s: State, editing: Option<Item>)
    requires Valid(s)
    ensures Valid(DeleteItem(s, editing))
  {
  }

  /** Requesting an item keeps the state consistent, provided the open item
      is a stored one. */
  lemma HandleRequestPreservesValid(s: State, detailsFor: Option<Item>, start: string, end: string,
                                    requestId: string, createdAt: int)
    requires Valid(s)
    requires detailsFor.Some? ==> detailsFor.value in s.items
    ensures Valid(HandleRequest(s, detailsFor, start, end, requestId, createdAt))
  {
    var r := HandleRequest(s, detailsFor, start, end, requestId, createdAt);
    if r != s {
      assert r.requests == [r.requests[0]] + s.requests;
    }
  }

  /** Changing request statuses keeps every request's item and borrower. */
  lemma StatusChangePreservesValid(s: State, r: State)
    requires Valid(s)
    requires r.items == s.items && |r.requests| == |s.requests|
    requires forall k :: 0 <= k < |s.requests| ==>
      r.requests[k].itemId == s.requests[k].itemId && r.requests[k].borrowerId == s.requests[k].borrowerId
    requires forall l :: l in r.loans ==> |l.returnPhotos| <= MaxPhotos
    ensures Valid(r)
  {
    forall q | q in r.requests
      ensures exists x :: x in s.requests && x.itemId == q.itemId && x.borrowerId == q.borrowerId
    {
      var k :| 0 <= k < |r.requests| && r.requests[k] == q;
      assert s.requests[k] in s.requests;
    }
  }

  lemma ApprovePreservesValid(s: State, q: Request, loanId: string)
    requires Valid(s)
    ensures Valid(Approve(s, q, loanId))
  {
    var r := Approve(s, q, loanId);
    assert r.loans == [r.loans[0]] + s.loans;
    StatusChangePreservesValid(s, r);
  }

  lemma DeclinePreservesValid(s: State, q: Request)
    requires Valid(s)
    ensures Valid(Decline(s, q))
  {
    StatusChangePreservesValid(s, Decline(s, q));
  }

  lemma MarkReturnedPreservesValid(s: State, returning: Option<Loan>, notes: string, files: seq<string>)
    requires Valid(s)
    ensures Valid(MarkReturned(s, returning, notes, files))
  {
    var r := MarkReturned(s, returning, notes, files);
    forall l | l in r.loans ensures |l.returnPhotos| <= MaxPhotos {
      var k :| 0 <= k < |r.loans| && r.loans[k] == l;
      assert s.loans[k] in s.loans;
    }
  }

  /** An empty search box and filter list every item. */
  lemma EmptySearchMatches(i: Item)
    ensures i.Matches("", "")
  {
    EmptySearchMatchesAll(i.title);
  }

  /** The user sees every pending request on an item they own whose item is
      listed under the search and filter; with an empty search and filter,
      that is every such request. */
  lemma IncomingComplete(s: State, q: Request, search: string, filter: string)
    requires q in s.requests && q.status == Pending
    requires exists i :: i in s.items && i.id == q.itemId && i.ownerId == s.user.id
    ensures ItemShown(s.items, q.itemId, search, filter) ==> q in Incoming(s, search, filter)
    ensures q in Incoming(s, "", "")
  {
    var i :| i in s.items && i.id == q.itemId && i.ownerId == s.user.id;
    assert q.itemId in MyItemIds(s);
    EmptySearchMatches(FindItem(s.items, q.itemId).value);
  }

  /** The user sees every pending request of their own whose item is listed
      under the search and filter; with an empty search and filter, every
      one on an item that exists. */
  lemma OutgoingComplete(s: State, q: Request, search: string, filter: string)
    requires q in s.requests && q.status == Pending && q.borrowerId == s.user.id
    requires exists i :: i in s.items && i.id == q.itemId
    ensures ItemShown(s.items, q.itemId, search, filter) ==> q in Outgoing(s, search, filter)
    ensures q in Outgoing(s, "", "")
  {
    EmptySearchMatches(FindItem(s.items, q.itemId).value);
  }

  /** A member's list holds every item of theirs in the circle that matches
      the search and filter; with an empty search and filter, all of them. */
  lemma ItemsByMemberComplete(s: State, activeCircleId: string, memberId: string, i: Item,
                              search: string, filter: string)
    requires i in s.items && i.circleId == activeCircleId && i.ownerId == memberId
    ensures i.Matches(search, filter) ==> i in ItemsByMember(s, activeCircleId, search, filter, memberId)
    ensures i in ItemsByMember(s, activeCircleId, "", "", memberId)
  {
    EmptySearchMatchesAll(i.title);
  }

  /** No loan is both active and in the history; a stored loan whose item is
      listed under the search and filter is in exactly one of the two, and
      with an empty search and filter that holds for every loan whose item
      exists. */
  lemma ActiveAndHistoryPartition(s: State, l: Loan, search: string, filter: string)
    ensures !(l in ActiveLoans(s, search, filter) && l in History(s, search, filter))
    ensures l in s.loans && ItemShown(s.items, l.itemId, search, filter) ==>
      (l in ActiveLoans(s, search, filter) <==> l !in History(s, search, filter))
    ensures l in s.loans && (exists i :: i in s.items && i.id == l.itemId) ==>
      (l in ActiveLoans(s, "", "") <==> l !in History(s, "", ""))
  {
    if l in s.loans && exists i :: i in s.items && i.id == l.itemId {
      EmptySearchMatches(FindItem(s.items, l.itemId).value);
    }
  }

  /** Approving a request from the incoming list takes it out of that list,
      records it as APPROVED, and lists the new loan among the active loans
      on an item the user owns. */
  lemma ApproveIncoming(s: State, q: Request, loanId: string, search: string, filter: string)
    requires q in Incoming(s, search, filter)
    ensures var r := Approve(s, q, loanId);
      && q.(status := Approved) in r.requests
      && (forall x :: x in Incoming(r, search, filter) ==> x.id != q.id)
      && r.loans[0] in ActiveLoans(r, search, filter)
      && r.loans[0].itemId in MyItemIds(r)
  {
    var r := Approve(s, q, loanId);
    var k :| 0 <= k < |s.requests| && s.requests[k] == q;
    assert r.requests[k] == q.(status := Approved);
    forall x | x in r.requests && x.id == q.id ensures x.status == Approved {
      var j :| 0 <= j < |r.requests| && r.requests[j] == x;
    }
  }

  /** Declining a request from the incoming list takes it out of that list,
      records it as DECLINED and creates no loan. */
  lemma DeclineIncoming(s: State, q: Request, search: string, filter: string)
    requires q in Incoming(s, search, filter)
    ensures var r := Decline(s, q);
      && q.(status := Declined) in r.requests
      && (forall x :: x in Incoming(r, search, filter) ==> x.id != q.id)
      && r.loans == s.loans
  {
    var r := Decline(s, q);
    var k :| 0 <= k < |s.requests| && s.requests[k] == q;
    assert r.requests[k] == q.(status := Declined);
    forall x | x in r.requests && x.id == q.id ensures x.status == Declined {
      var j :| 0 <= j < |r.requests| && r.requests[j] == x;
    }
  }

  /** Returning an active loan moves it from the active list to the history,
      with the notes and at most three photos, and leaves the requests
      alone. */
  lemma ReturnActive(s: State, l: Loan, notes: string, files: seq<string>, search: string, filter: string)
    requires l in ActiveLoans(s, search, filter)
    ensures var r := MarkReturned(s, Some(l), notes, files);
      && (forall x :: x in ActiveLoans(r, search, filter) ==> x.id != l.id)
      && l.(status := Returned, returnNotes := Some(notes), returnPhotos := Take(files, MaxPhotos))
           in History(r, search, filter)
      && r.requests == s.requests
  {
    var r := MarkReturned(s, Some(l), notes, files);
    var k :| 0 <= k < |s.loans| && s.loans[k] == l;
    assert r.loans[k] == l.(status := Returned, returnNotes := Some(notes), returnPhotos := Take(files, MaxPhotos));
    forall x | x in r.loans && x.id == l.id ensures x.status == Returned {
      var j :| 0 <= j < |r.loans| && r.loans[j] == x;
    }
  }

  /** Deleting an item keeps its loans but leaves them pointing at nothing:
      they drop out of both the active list and the history. */
  lemma DeleteItemOrphansLoans(s: State, e: Item, l: Loan, search: string, filter: string)
    requires l in s.loans && l.itemId == e.id
    ensures var r := DeleteItem(s, Some(e));
      && l in r.loans
      && (forall i :: i in r.items ==> i.id != l.itemId)
      && l !in ActiveLoans(r, search, filter)
      && l !in History(r, search, filter)
  {
  }

  /** Nothing stops two approvals of requests for the same item: the item
      then has two active loans. */
  lemma ApproveAllowsDoubleBooking(s: State, q1: Request, q2: Request, id1: string, id2: string)
    requires q1.itemId == q2.itemId
    ensures var r := Approve(Approve(s, q1, id1), q2, id2);
      && r.loans[0].status == Active && r.loans[1].status == Active
      && r.loans[0].itemId == r.loans[1].itemId
      && |r.loans| == |s.loans| + 2
  {
  }
}
