/** The persisted snapshot of the tool-lending app: the self user, the
    friends, the circles, and the items, borrow requests and loans that the
    lending lifecycle works on. Every update builds a new `State` value. */
module Types {
  import opened Text

  /** An optional field (`field?: T` in the app's record types). */
  datatype Option<+T> = None | Some(value: T)

  /** The self user of this local instance. */
  datatype User = User(id: string, name: string, circles: seq<string>)

  /** A person the self user knows; also the shape of each entry of the
      member list, which puts the self user first. */
  datatype Friend = Friend(id: string, name: string)

  datatype Circle = Circle(id: string, name: string, inviteCode: string, members: seq<string>)

  /** A tool listed by its owner in one circle. `rv` is the replacement value
      and `avail` the free-text availability; `createdAt` is a millisecond
      timestamp. */
  datatype Item = Item(
    id: string,
    ownerId: string,
    circleId: string,
    title: string,
    category: Option<string>,
    photos: seq<string>,
    note: Option<string>,
    rv: Option<real>,
    avail: Option<string>,
    createdAt: int)
  {
    /** The search box and the category filter that every list view applies:
        the lower-cased title contains the lower-cased search text, and a
        non-empty filter must equal the category exactly. */
    predicate Matches(search: string, filter: string): (b: bool)
      ensures b <==>
        && (exists k :: OccursAt(ToLower(title), ToLower(search), k))
        && (filter == "" || category == Some(filter))
    {
      IncludesIffOccurs(ToLower(title), ToLower(search));
      Includes(ToLower(title), ToLower(search)) && (filter == "" || category == Some(filter))
    }
  }

  datatype RequestStatus = Pending | Approved | Declined

  /** A borrower's request for an item over a date range (`yyyy-mm-dd`). */
  datatype Request = Request(
    id: string,
    itemId: string,
    borrowerId: string,
    startDate: string,
    endDate: string,
    status: RequestStatus,
    createdAt: int)

  datatype LoanStatus = Active | Returned

  /** The record created when a request is approved. */
  datatype Loan = Loan(
    id: string,
    itemId: string,
    borrowerId: string,
    startDate: string,
    endDate: string,
    status: LoanStatus,
    returnPhotos: seq<string>,
    returnNotes: Option<string>)

  datatype State = State(
    user: User,
    friends: seq<Friend>,
    circles: seq<Circle>,
    items: seq<Item>,
    requests: seq<Request>,
    loans: seq<Loan>)

  /** `items.find(i => i.id === id)`: the first item with that id, if any. */
  function FindItem(items: seq<Item>, id: string): (r: Option<Item>)
    ensures r.None? <==> forall i :: i in items ==> i.id != id
    ensures r.Some? ==> r.value.id == id
    ensures r.Some? ==>
      exists k :: 0 <= k < |items| && items[k] == r.value && forall j :: 0 <= j < k ==> items[j].id != id
  {
    if items == [] then None
    else if items[0].id == id then
      Some(items[0])
    else
      var r := FindItem(items[1..], id);
      assert items == [items[0]] + items[1..];
      if r.Some? then
        var k :| 0 <= k < |items[1..]| && items[1..][k] == r.value
                 && forall j :: 0 <= j < k ==> items[1..][j].id != id;
        assert items[k + 1] == r.value;
        r
      else r
  }

  /** Whether a request or loan on item `id` is listed by a view with this
      search text and filter: the first item with that id must exist and
      match. A reference to a deleted item is never listed. */
  predicate ItemShown(items: seq<Item>, id: string, search: string, filter: string): (b: bool)
    ensures b <==> exists k :: 0 <= k < |items| && items[k].id == id && items[k].Matches(search, filter)
                              && forall j :: 0 <= j < k ==> items[j].id != id
  {
    match FindItem(items, id)
    case None => false
    case Some(it) => it.Matches(search, filter)
  }
}
