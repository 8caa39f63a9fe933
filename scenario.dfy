/** The lending lifecycle stated on the seed snapshot, with fixed ids. */
module Scenario {
  import opened Types
  import opened MyItems
  import opened Requests
  import opened LoanHistory
  import opened MyCircle
  import opened Page
  import opened SeedState
  import opened Seqs
  import Lifecycle

  /** The seed with fixed ids for its circle and items. */
  function Start(): State {
    Seed("family", "k3x9q", "painter", "drill", 1000, 1001)
  }

  /** The user's attempt to borrow their own spray painter is rejected. */
  lemma OwnItemRequestRejected()
    ensures HandleRequest(Start(), Some(Start().items[0]), "2024-06-01", "2024-06-03", "r0", 2000) == Start()
  {
  }

  /** A request with a missing end date is rejected. */
  lemma MissingDateRejected()
    ensures HandleRequest(Start(), Some(Start().items[1]), "2024-06-01", "", "r0", 2000) == Start()
  {
  }

  /** Both seed items are in the family circle and have a category, in the
      order painter, drill. */
  lemma SeedCategoryValues()
    ensures CircleCategoryValues(Start().items, "family") == ["Painting", "Power Tools"]
  {
    var s := Start();
    var p := HasCategoryIn("family");
    assert forall i :: i in s.items ==> p(i) by {
      assert s.items == [s.items[0], s.items[1]];
    }
    FilterAll(s.items, p);
    assert Map(s.items, CategoryValue) == ["Painting", "Power Tools"];
  }

  /** The seed's filter box offers its two categories. */
  lemma SeedCategories()
    ensures Categories(Start(), "family") == ["Painting", "Power Tools"]
  {
    SeedCategoryValues();
    DedupOfDistinct(["Painting", "Power Tools"], {});
  }

  /** Every known person is a member of the seed's family circle. */
  lemma SeedMembers()
    ensures Members(Start(), "family") == People(Start())
  {
    assert CircleMemberIds(Start(), "family") == ["you", "alice", "bob"];
    assert People(Start()) == [Friend("you", "You"), Friend("alice", "Alice"), Friend("bob", "Bob")];
  }

  /** The user asks to borrow Alice's drill: the request is pending and is
      listed as outgoing, and, since the user does not own the drill, not as
      incoming, so the user is never offered its Approve button. */
  lemma UserRequestsDrill()
    ensures var s := HandleRequest(Start(), Some(Start().items[1]), "2024-06-01", "2024-06-03", "r1", 2000);
      && s.requests == [Request("r1", "drill", "you", "2024-06-01", "2024-06-03", Pending, 2000)]
      && Outgoing(s, "", "") == s.requests
      && Incoming(s, "", "") == []
  {
    var s0 := Start();
    var s := HandleRequest(s0, Some(s0.items[1]), "2024-06-01", "2024-06-03", "r1", 2000);
    assert FindItem(s.items, "drill") == Some(s0.items[1]) by {
      assert s.items[1..][0] == s0.items[1];
    }
    assert s0.items[1].Matches("", "") by {
      Lifecycle.EmptySearchMatches(s0.items[1]);
    }
    assert MyItemIds(s) == {"painter"};
  }

  /** A stored pending request by Bob for the user's spray painter. */
  function WithBobsRequest(): State {
    Start().(requests := [Request("r1", "painter", "bob", "2024-06-01", "2024-06-03", Pending, 2000)])
  }

  /** Bob's request approved, as loan "l1". */
  function PainterLent(): State {
    Approve(WithBobsRequest(), WithBobsRequest().requests[0], "l1")
  }

  /** The painter marked returned with notes and four photo files. */
  function PainterBack(): State {
    MarkReturned(PainterLent(), Some(PainterLent().loans[0]), "All good", ["p1", "p2", "p3", "p4"])
  }

  /** Bob's request is consistent and incoming, so the user is offered its
      Approve button. */
  lemma BobsRequestIncoming()
    ensures Lifecycle.Valid(WithBobsRequest())
    ensures Incoming(WithBobsRequest(), "", "") == WithBobsRequest().requests
  {
    var s1 := WithBobsRequest();
    assert s1.items == [s1.items[0], s1.items[1]];
    assert s1.items[0].Matches("", "") by {
      Lifecycle.EmptySearchMatches(s1.items[0]);
    }
    assert MyItemIds(s1) == {"painter"};
  }

  /** Approving Bob's request records it APPROVED, takes it off the incoming
      list and lists one active loan on the user's own painter, so the user
      is offered Mark Returned. */
  lemma ApproveBobsRequest()
    ensures PainterLent().requests == [WithBobsRequest().requests[0].(status := Approved)]
    ensures PainterLent().loans == [Loan("l1", "painter", "bob", "2024-06-01", "2024-06-03", Active, [], None)]
    ensures Incoming(PainterLent(), "", "") == []
    ensures ActiveLoans(PainterLent(), "", "") == PainterLent().loans
    ensures FindItem(PainterLent().items, "painter").Some?
    ensures FindItem(PainterLent().items, "painter").value.ownerId == PainterLent().user.id
  {
    var s2 := PainterLent();
    assert s2.items[0].Matches("", "") by {
      Lifecycle.EmptySearchMatches(s2.items[0]);
    }
  }

  /** Returning the painter with four photo files keeps the first three,
      leaves the request APPROVED, and moves the loan from the active list
      to the history. */
  lemma ReturnPainter()
    ensures PainterBack().requests == PainterLent().requests
    ensures PainterBack().loans == [Loan("l1", "painter", "bob", "2024-06-01", "2024-06-03", Returned,
                                         ["p1", "p2", "p3"], Some("All good"))]
    ensures ActiveLoans(PainterBack(), "", "") == []
    ensures History(PainterBack(), "", "") == PainterBack().loans
  {
    var s3 := PainterBack();
    assert Take(["p1", "p2", "p3", "p4"], MaxPhotos) == ["p1", "p2", "p3"];
    assert s3.items[0].Matches("", "") by {
      Lifecycle.EmptySearchMatches(s3.items[0]);
    }
  }

  /** Only empty dates are rejected: a range that ends before it starts is
      accepted as a pending request. */
  lemma ReversedDatesAccepted()
    ensures var s := HandleRequest(Start(), Some(Start().items[1]), "2024-06-03", "2024-06-01", "r2", 2000);
      && |s.requests| == 1
      && s.requests[0].status == Pending
      && s.requests[0].startDate == "2024-06-03" && s.requests[0].endDate == "2024-06-01"
  {
  }
}
