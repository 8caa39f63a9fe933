/** The "History" tab (src/app/page.tsx, `LoanHistory`): returned loans. */
module LoanHistory {
  import opened Types
  import opened Seqs

  /** `history`: the returned loans whose item is listed under the current
      search and filter. */
  function History(s: State, search: string, filter: string): (r: seq<Loan>)
    ensures IsSubsequence(r, s.loans)
    ensures forall l :: l in r ==>
      && l in s.loans
      && l.status == Returned
      && (exists i :: i in s.items && i.id == l.itemId)
      && ItemShown(s.items, l.itemId, search, filter)
  {
    Filter(s.loans, (l: Loan) => l.status == Returned && ItemShown(s.items, l.itemId, search, filter))
  }
}
