/** The "My Items" tab: adding, editing and deleting one's own items
    (src/app/page.tsx, `MyItems`). Each handler hands the store an updater
    from the current snapshot to the next one; a rejected save leaves the
    snapshot as it was. */
module MyItems {
  import opened Types
  import opened Text
  import opened Seqs

  /** What the add/edit form holds when "Save"/"Update" is pressed. `files`
      are the selected image files, each already encoded as a data URL. */
  datatype ItemForm = ItemForm(
    title: string,
    category: string,
    note: string,
    rv: string,
    avail: string,
    files: seq<string>)

  /** The most photos an item or a return keeps: only the first three
      selected files are encoded. */
  const MaxPhotos: nat := 3

  /** `category || undefined`: an empty category is stored as absent. */
  function CategoryField(category: string): (r: Option<string>)
    ensures r.None? <==> category == ""
    ensures r.Some? ==> r.value == category && r.value != ""
  {
    if category == "" then None else Some(category)
  }

  /** `item.category || ""`: what the edit form shows for a stored category. */
  function CategoryText(category: Option<string>): string {
    match category
    case None => ""
    case Some(c) => c
  }

  /** Reopening a saved item for editing shows the category that was typed,
      and saving the shown text again stores the same field. */
  lemma CategoryRoundTrip(category: string, stored: Option<string>)
    ensures CategoryText(CategoryField(category)) == category
    ensures stored != Some("") ==> CategoryField(CategoryText(stored)) == stored
  {
  }

  /** `rv ? Number(rv) : undefined`, with the numeric conversion supplied by
      the caller. */
  function ReplacementValue(rv: string, toNumber: string -> real): (r: Option<real>)
    ensures r.None? <==> rv == ""
    ensures r.Some? ==> r.value == toNumber(rv)
  {
    if rv == "" then None else Some(toNumber(rv))
  }

  /** The user-editable fields of `i` are the ones the form holds. */
  predicate CarriesForm(i: Item, form: ItemForm, toNumber: string -> real) {
    && i.title == form.title
    && i.category == CategoryField(form.category)
    && i.note == Some(form.note)
    && i.rv == ReplacementValue(form.rv, toNumber)
    && i.avail == Some(form.avail)
  }

  /** `updated`: the edited item with the form's fields; its photos are
      replaced only when files were selected. */
  function EditedItem(e: Item, form: ItemForm, toNumber: string -> real): (u: Item)
    ensures u.id == e.id && u.ownerId == e.ownerId && u.circleId == e.circleId && u.createdAt == e.createdAt
    ensures CarriesForm(u, form, toNumber)
    ensures form.files == [] ==> u.photos == e.photos
    ensures form.files != [] ==> u.photos == Take(form.files, MaxPhotos)
  {
    var photos := if |form.files| > 0 then Take(form.files, MaxPhotos) else e.photos;
    e.(title := form.title, note := Some(form.note), rv := ReplacementValue(form.rv, toNumber),
       avail := Some(form.avail), category := CategoryField(form.category), photos := photos)
  }

  /** `newItem`: owned by `ownerId` in circle `circleId`, with the form's
      fields and at most the first three selected files as photos. */
  function NewItem(id: string, ownerId: string, circleId: string, form: ItemForm,
                   toNumber: string -> real, createdAt: int): (n: Item)
    ensures n.id == id && n.ownerId == ownerId && n.circleId == circleId && n.createdAt == createdAt
    ensures CarriesForm(n, form, toNumber)
    ensures n.photos == Take(form.files, MaxPhotos) && |n.photos| <= MaxPhotos
  {
    var photos := if |form.files| > 0 then Take(form.files, MaxPhotos) else [];
    Item(id, ownerId, circleId, form.title, CategoryField(form.category), photos,
         Some(form.note), ReplacementValue(form.rv, toNumber), Some(form.avail), createdAt)
  }

  /** `saveItem`: rejects a title that is empty after trimming; otherwise
      either replaces every item with the edited item's id by the edited
      record, or prepends a new item owned by the user in the active circle.
      `newId` and `createdAt` stand for `uid()` and `now()`. */
  function SaveItem(s: State, editing: Option<Item>, form: ItemForm, activeCircleId: string,
                    newId: string, createdAt: int, toNumber: string -> real): (r: State)
    ensures IsBlank(form.title) ==> r == s
    ensures r == s.(items := r.items)
    ensures !IsBlank(form.title) && editing.None? ==>
      && |r.items| == |s.items| + 1
      && r.items[1..] == s.items
      && r.items[0].id == newId
      && r.items[0].ownerId == s.user.id
      && r.items[0].circleId == activeCircleId
      && r.items[0].createdAt == createdAt
      && CarriesForm(r.items[0], form, toNumber)
      && r.items[0].photos == Take(form.files, MaxPhotos)
    ensures !IsBlank(form.title) && editing.Some? ==>
      var e := editing.value;
      && |r.items| == |s.items|
      && forall k :: 0 <= k < |s.items| ==>
           if s.items[k].id != e.id then r.items[k] == s.items[k]
           else
             && r.items[k] == EditedItem(e, form, toNumber)
             && r.items[k].id == e.id
             && r.items[k].ownerId == e.ownerId
             && r.items[k].circleId == e.circleId
             && r.items[k].createdAt == e.createdAt
             && CarriesForm(r.items[k], form, toNumber)
             && (form.files == [] ==> r.items[k].photos == e.photos)
             && (form.files != [] ==> r.items[k].photos == Take(form.files, MaxPhotos))
  {
    TrimEmptyIffBlank(form.title);
    if Trim(form.title) == "" then s
    else
      match editing
      case Some(e) =>
        var updated := EditedItem(e, form, toNumber);
        s.(items := Map(s.items, (i: Item) => if i.id == e.id then updated else i))
      case None =>
        s.(items := [NewItem(newId, s.user.id, activeCircleId, form, toNumber, createdAt)] + s.items)
  }

  /** `deleteItem`: with no item being edited nothing happens; otherwise the
      item and every request on it are removed, keeping the order of the rest.
      Loans on the item are kept. */
  function DeleteItem(s: State, editing: Option<Item>): (r: State)
    ensures editing.None? ==> r == s
    ensures r == s.(items := r.items, requests := r.requests)
    ensures r.loans == s.loans
    ensures editing.Some? ==>
      var id := editing.value.id;
      && (forall i :: i in r.items <==> i in s.items && i.id != id)
      && (forall i :: multiset(r.items)[i] == if i.id != id then multiset(s.items)[i] else 0)
      && IsSubsequence(r.items, s.items)
      && (forall q :: q in r.requests <==> q in s.requests && q.itemId != id)
      && (forall q :: multiset(r.requests)[q] == if q.itemId != id then multiset(s.requests)[q] else 0)
      && IsSubsequence(r.requests, s.requests)
  {
    match editing
    case None => s
    case Some(e) =>
      s.(items := Filter(s.items, (i: Item) => i.id != e.id),
         requests := Filter(s.requests, (q: Request) => q.itemId != e.id))
  }
}
