/** The "Requests" tab (src/app/page.tsx, `Requests`): the incoming and
    outgoing pending requests, the active loans, and the approve, decline and
    mark-returned updaters. None of the updaters looks at the current status
    of what it changes: only the lists the tab shows keep them apart. */
module Requests {
  import opened Types
  import opened Seqs
  import MyItems

  /** `myItemIds`: the ids of every item the user owns, in any circle. */
  function MyItemIds(s: State): (r: set<string>)
    ensures forall id :: id in r <==> exists i :: i in s.items && i.ownerId == s.user.id && i.id == id
  {
    set i | i in s.items && i.ownerId == s.user.id :: i.id
  }

  /** `incoming`: pending requests on the user's items whose item is listed
      under the current search and filter. */
  function Incoming(s: State, search: string, filter: string): (r: seq<Request>)
    ensures IsSubsequence(r, s.requests)
    ensures forall q :: q in r ==>
      && q in s.requests
      && q.status == Pending
      && (exists i :: i in s.items && i.id == q.itemId && i.ownerId == s.user.id)
      && ItemShown(s.items, q.itemId, search, filter)
  {
    var ids := MyItemIds(s);
    Filter(s.requests, (q: Request) =>
      q.itemId in ids && q.status == Pending && ItemShown(s.items, q.itemId, search, filter))
  }

  /** `outgoing`: the user's own pending requests whose item is listed. */
  function Outgoing(s: State, search: string, filter: string): (r: seq<Request>)
    ensures IsSubsequence(r, s.requests)
    ensures forall q :: q in r ==>
      && q in s.requests
      && q.status == Pending
      && q.borrowerId == s.user.id
      && (exists i :: i in s.items && i.id == q.itemId)
      && ItemShown(s.items, q.itemId, search, filter)
  {
    Filter(s.requests, (q: Request) =>
      q.borrowerId == s.user.id && q.status == Pending && ItemShown(s.items, q.itemId, search, filter))
  }

  /** `active`: the active loans whose item is listed, whoever lent or
      borrowed it. */
  function ActiveLoans(s: State, search: string, filter: string): (r: seq<Loan>)
    ensures IsSubsequence(r, s.loans)
    ensures forall l :: l in r ==>
      && l in s.loans
      && l.status == Active
      && (exists i :: i in s.items && i.id == l.itemId)
      && ItemShown(s.items, l.itemId, search, filter)
  {
    Filter(s.loans, (l: Loan) => l.status == Active && ItemShown(s.items, l.itemId, search, filter))
  }

  /** `approve(q)`: every request with `q`'s id becomes APPROVED, and one
      active loan copied from `q` is put in front of the loans. `loanId`
      stands for `uid()`. */
  function Approve(s: State, q: Request, loanId: string): (r: State)
    ensures r == s.(requests := r.requests, loans := r.loans)
    ensures |r.requests| == |s.requests|
    ensures forall k :: 0 <= k < |s.requests| ==>
      r.requests[k] == if s.requests[k].id == q.id then s.requests[k].(status := Approved) else s.requests[k]
    ensures |r.loans| == |s.loans| + 1 && r.loans[1..] == s.loans
    ensures var l := r.loans[0];
      && l.id == loanId
      && l.status == Active
      && l.returnPhotos == []
      && l.returnNotes == None
      && l.itemId == q.itemId && l.borrowerId == q.borrowerId
      && l.startDate == q.startDate && l.endDate == q.endDate
  {
    var loan := Loan(loanId, q.itemId, q.borrowerId, q.startDate, q.endDate, Active, [], None);
    s.(requests := Map(s.requests, (x: Request) => if x.id == q.id then x.(status := Approved) else x),
       loans := [loan] + s.loans)
  }

  /** `decline(q)`: every request with `q`'s id becomes DECLINED; nothing
      else changes. */
  function Decline(s: State, q: Request): (r: State)
    ensures r == s.(requests := r.requests)
    ensures |r.requests| == |s.requests|
    ensures forall k :: 0 <= k < |s.requests| ==>
      r.requests[k] == if s.requests[k].id == q.id then s.requests[k].(status := Declined) else s.requests[k]
  {
    s.(requests := Map(s.requests, (x: Request) => if x.id == q.id then x.(status := Declined) else x))
  }

  /** `markReturned`: with no loan chosen nothing happens; otherwise every
      loan with the chosen loan's id becomes RETURNED with the notes and the
      first three photo files, keeping its own id, item, borrower and dates.
      Requests, including the approved one, are not touched. */
  function MarkReturned(s: State, returning: Option<Loan>, notes: string, files: seq<string>): (r: State)
    ensures returning.None? ==> r == s
    ensures r == s.(loans := r.loans)
    ensures |r.loans| == |s.loans|
    ensures forall k :: 0 <= k < |s.loans| ==>
      var x, y := s.loans[k], r.loans[k];
      if returning.Some? && x.id == returning.value.id then
        && y.status == Returned
        && y.returnNotes == Some(notes)
        && y.returnPhotos == Take(files, MyItems.MaxPhotos)
        && y.id == x.id && y.itemId == x.itemId && y.borrowerId == x.borrowerId
        && y.startDate == x.startDate && y.endDate == x.endDate
      else y == x
  {
    match returning
    case None => s
    case Some(l) =>
      var photos := Take(files, MyItems.MaxPhotos);
      s.(loans := Map(s.loans, (x: Loan) =>
           if x.id == l.id then x.(status := Returned, returnNotes := Some(notes), returnPhotos := photos) else x))
  }
}
