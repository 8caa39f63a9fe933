/** The "My Circle" tab (src/app/page.tsx, `MyCircle`): the members of the
    active circle, each with the items they list there. */
module MyCircle {
  import opened Types
  import opened Text
  import opened Seqs

  /** `circles.find(c => c.id === id)`: the first circle with that id. */
  function FindCircle(circles: seq<Circle>, id: string): (r: Option<Circle>)
    ensures r.None? <==> forall c :: c in circles ==> c.id != id
    ensures r.Some? ==> r.value in circles && r.value.id == id
    ensures r.Some? ==>
      exists k :: 0 <= k < |circles| && circles[k] == r.value && forall j :: 0 <= j < k ==> circles[j].id != id
  {
    if circles == [] then None
    else if circles[0].id == id then Some(circles[0])
    else
      assert circles == [circles[0]] + circles[1..];
      var r := FindCircle(circles[1..], id);
      if r.Some? then
        var k :| 0 <= k < |circles[1..]| && circles[1..][k] == r.value
                 && forall j :: 0 <= j < k ==> circles[1..][j].id != id;
        assert circles[k + 1] == r.value;
        r
      else r
  }

  /** `find(...)?.members || []`: the member ids of the active circle, none
      when no circle has that id. */
  function CircleMemberIds(s: State, activeCircleId: string): (r: seq<string>)
    ensures (forall c :: c in s.circles ==> c.id != activeCircleId) ==> r == []
    ensures forall m :: m in r ==> exists c :: c in s.circles && c.id == activeCircleId && m in c.members
    ensures forall k :: 0 <= k < |s.circles| ==>
      (s.circles[k].id == activeCircleId && forall j :: 0 <= j < k ==> s.circles[j].id != activeCircleId) ==>
      r == s.circles[k].members
  {
    match FindCircle(s.circles, activeCircleId)
    case None => []
    case Some(c) => c.members
  }

  /** `[state.user, ...state.friends]`: everyone the user knows, the user
      first. */
  function People(s: State): (r: seq<Friend>)
    ensures |r| == |s.friends| + 1
    ensures r[0].id == s.user.id && r[0].name == s.user.name
    ensures r[1..] == s.friends
  {
    [Friend(s.user.id, s.user.name)] + s.friends
  }

  /** `members`: the known people who belong to the active circle, in the
      order of `People`. */
  function Members(s: State, activeCircleId: string): (r: seq<Friend>)
    ensures IsSubsequence(r, People(s))
    ensures forall m :: m in r <==> m in People(s) && m.id in CircleMemberIds(s, activeCircleId)
    ensures forall m :: multiset(r)[m] == (if m.id in CircleMemberIds(s, activeCircleId) then multiset(People(s))[m] else 0)
    ensures forall m :: m in r ==> exists c :: c in s.circles && c.id == activeCircleId && m.id in c.members
    ensures (forall m :: m in People(s) ==> m.id in CircleMemberIds(s, activeCircleId)) ==> r == People(s)
  {
    var ids := CircleMemberIds(s, activeCircleId);
    var inCircle := (m: Friend) => m.id in ids;
    FilterAll(People(s), inCircle);
    Filter(People(s), inCircle)
  }

  /** `itemsByMember(memberId)`: the member's items in the active circle
      whose title matches the search text and whose category matches a
      non-empty filter, in store order. */
  function ItemsByMember(s: State, activeCircleId: string, search: string, filter: string,
                         memberId: string): (r: seq<Item>)
    ensures IsSubsequence(r, s.items)
    ensures forall i :: i in r ==>
      && i in s.items
      && i.circleId == activeCircleId
      && i.ownerId == memberId
      && Includes(ToLower(i.title), ToLower(search))
      && (filter != "" ==> i.category == Some(filter))
  {
    var owned := (i: Item) => i.circleId == activeCircleId && i.ownerId == memberId;
    var found := (i: Item) => Includes(ToLower(i.title), ToLower(search));
    var kept := (i: Item) => filter == "" || i.category == Some(filter);
    FilterFuse(s.items, owned, found);
    FilterFuse(s.items, Both(owned, found), kept);
    Filter(Filter(Filter(s.items, owned), found), kept)
  }
}
