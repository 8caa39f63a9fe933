/** The snapshot the app starts from when nothing is stored
    (src/app/page.tsx, `seed`), with its generated ids and timestamps
    passed in. */
module SeedState {
  import opened Types
  import opened Text
  import opened Seqs

  /** `seed()`: the user "you", friends Alice and Bob, one circle "Family"
      holding all three, and two items: the user's spray painter and Alice's
      drill. `circleId`, `token`, `painterId` and `drillId` stand for the four
      `uid()` calls, `t1` and `t2` for the two `now()` calls. */
  function Seed(circleId: string, token: string, painterId: string, drillId: string, t1: int, t2: int): (r: State)
    ensures r.user.id == "you" && r.user.circles == [circleId]
    ensures r.friends == [Friend("alice", "Alice"), Friend("bob", "Bob")]
    ensures |r.circles| == 1 && r.circles[0].id == circleId && r.circles[0].name == "Family"
    ensures r.circles[0].members == ["you", "alice", "bob"]
    ensures "FAM-" <= r.circles[0].inviteCode && |r.circles[0].inviteCode| <= 9
    ensures |r.items| == 2
    ensures r.items[0].id == painterId && r.items[0].title == "Spray Painter" && r.items[0].ownerId == "you"
    ensures r.items[1].id == drillId && r.items[1].title == "18V Drill + Bits" && r.items[1].ownerId == "alice"
    ensures forall i :: i in r.items ==> i.circleId == circleId && i.photos == []
    ensures r.items[0].createdAt == t1 && r.items[1].createdAt == t2
    ensures r.requests == [] && r.loans == []
  {
    var user := User("you", "You", [circleId]);
    var friends := [Friend("alice", "Alice"), Friend("bob", "Bob")];
    var circle := Circle(circleId, "Family", "FAM-" + ToUpper(Take(token, 5)), [user.id, friends[0].id, friends[1].id]);
    var items := [
      Item(painterId, user.id, circleId, "Spray Painter", Some("Painting"), [],
           Some("Flush nozzle after use."), Some(180.0), Some("Weekends"), t1),
      Item(drillId, friends[0].id, circleId, "18V Drill + Bits", Some("Power Tools"), [],
           Some("Battery ~40 min."), Some(120.0), Some("Evenings"), t2)
    ];
    State(user, friends, [circle], items, [], [])
  }
}
