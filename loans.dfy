/** A member's loan list (`LoansTable`): a filter by loan type, a status
    label per loan and pages of five rows. */
module Loans {

  import opened Seqs
  import opened Pagination

  const ItemsPerPage: nat := 5

  /** The filter value that shows every loan. */
  const AllTypes: string := "All"

  /** The fields of a loan the table reads for its logic. */
  datatype Loan = Loan(
    reference: string,
    loanType: string,
    accountNumber: string,
    isApproved: bool,
    isActive: bool)

  /** `loans.map((item) => item.loan_type)`. */
  function TypesOf(loans: seq<Loan>): (types: seq<string>)
    ensures |types| == |loans|
    ensures forall t :: t in types <==> exists l :: l in loans && l.loanType == t
  {
    var types := seq(|loans|, (i: int) requires 0 <= i < |loans| => loans[i].loanType);
    assert forall i :: 0 <= i < |loans| ==> types[i] == loans[i].loanType && loans[i] in loans;
    assert forall l :: l in loans ==> exists i :: 0 <= i < |loans| && loans[i] == l;
    types
  }

  /** `loanTypes`: "All", then the loan types in the order of a `Set` built
      from them. */
  function LoanTypes(loans: seq<Loan>): (options: seq<string>)
    ensures |options| >= 1 && options[0] == AllTypes
  {
    [AllTypes] + Distinct(TypesOf(loans))
  }

  /** After "All" the options are the loan types that occur, each exactly once. */
  lemma LoanTypesOnce(loans: seq<Loan>)
    ensures forall t :: t in LoanTypes(loans)[1..] <==> exists i :: 0 <= i < |loans| && loans[i].loanType == t
    ensures NoDup(LoanTypes(loans)[1..])
  {
    var types := TypesOf(loans);
    assert LoanTypes(loans)[1..] == Distinct(types);
    forall t ensures t in types <==> exists i :: 0 <= i < |loans| && loans[i].loanType == t {
      if t in types {
        var l :| l in loans && l.loanType == t;
        var i :| 0 <= i < |loans| && loans[i] == l;
      } else {
        assert forall i :: 0 <= i < |loans| ==> loans[i] in loans;
      }
    }
  }

  /** After "All", the types are listed in the order in which the loans first show them. */
  lemma LoanTypesInFirstAppearanceOrder(loans: seq<Loan>)
    ensures FirstAppearanceOrder(TypesOf(loans), LoanTypes(loans)[1..])
  {
    DistinctInFirstAppearanceOrder(TypesOf(loans));
    assert LoanTypes(loans)[1..] == Distinct(TypesOf(loans));
  }

  /** The text of each filter option as written: `{type.name}` reads a
      property a string does not have, which renders as no text. */
  function OptionLabelsAsWritten(options: seq<string>): (labels: seq<string>)
    ensures |labels| == |options|
    ensures forall i, j :: 0 <= i < |labels| && 0 <= j < |labels| ==> labels[i] == labels[j]
  {
    seq(|options|, (k: int) => "")
  }

  /** As written, with any loan at all, the "All" option and the first loan
      type are different filter values that show the same text. */
  lemma AsWrittenOptionsLookAlike(loans: seq<Loan>)
    requires |loans| > 0
    requires forall l :: l in loans ==> l.loanType != AllTypes
    ensures |LoanTypes(loans)| >= 2 && LoanTypes(loans)[0] != LoanTypes(loans)[1]
    ensures OptionLabelsAsWritten(LoanTypes(loans))[0] == OptionLabelsAsWritten(LoanTypes(loans))[1]
  {
    var types := TypesOf(loans);
    assert loans[0] in loans;
    assert loans[0].loanType in types;
    var d := Distinct(types);
    assert d != [];
    assert d[0] in types;
    assert LoanTypes(loans)[1] == d[0];
  }

  /** The text of each filter option: the type itself, so that different
      options show different texts. */
  function OptionLabels(options: seq<string>): (labels: seq<string>)
    ensures |labels| == |options|
    ensures forall i, j :: 0 <= i < |options| && 0 <= j < |options| && options[i] != options[j] ==>
              labels[i] != labels[j]
  {
    options
  }

  /** When no loan is typed "All", every filter option shows a different text. */
  lemma OptionLabelsDistinguishOptions(loans: seq<Loan>)
    requires forall l :: l in loans ==> l.loanType != AllTypes
    ensures NoDup(OptionLabels(LoanTypes(loans)))
  {
    var options := LoanTypes(loans);
    var labels := OptionLabels(options);
    var d := Distinct(TypesOf(loans));
    LoanTypesOnce(loans);
    assert options[1..] == d;
    forall i, j | 0 <= i < j < |options| ensures labels[i] != labels[j] {
      assert options[j] == d[j - 1];
      if i == 0 {
        assert d[j - 1] in TypesOf(loans);
      } else {
        assert options[i] == d[i - 1];
      }
    }
  }

  /** `filteredLoans`: every loan under "All"; otherwise the loans of the
      chosen type, every one of them, in their original order. */
  function FilteredLoans(loans: seq<Loan>, filterType: string): (r: seq<Loan>)
    ensures filterType == AllTypes ==> r == loans
    ensures Subseq(r, loans)
    ensures forall l :: l in r <==> l in loans && (filterType == AllTypes || l.loanType == filterType)
    ensures filterType != AllTypes ==>
              forall l :: multiset(r)[l] == if l.loanType == filterType then multiset(loans)[l] else 0
  {
    if filterType == AllTypes then
      assert Subseq(loans, loans) by { FilterKeepsAll(loans, (l: Loan) => true); }
      loans
    else
      FilterCount(loans, (l: Loan) => l.loanType == filterType);
      Filter(loans, (l: Loan) => l.loanType == filterType)
  }

  /** `getStatus`: "Pending" until approved, then "Active" or "Inactive". */
  function GetStatus(loan: Loan): (status: string)
    ensures status == "Pending" <==> !loan.isApproved
    ensures status == "Active" <==> loan.isApproved && loan.isActive
    ensures status == "Inactive" <==> loan.isApproved && !loan.isActive
  {
    if !loan.isApproved then "Pending" else if loan.isActive then "Active" else "Inactive"
  }

  /** `Array.from({ length: totalPages }, (_, i) => i + 1)`: one button per page. */
  function PageNumbers(totalPages: nat): (pages: seq<int>)
    ensures |pages| == totalPages
    ensures forall k :: 0 <= k < totalPages ==> pages[k] == k + 1 && AcceptsPage(pages[k], totalPages)
  {
    seq(totalPages, (i: int) => i + 1)
  }

  /** Five loans shown on page 2, as after a refetch that shrinks the list
      while the page is kept: the page is empty and the line reads
      "Showing 6 to 5 of 5". */
  lemma KeptPageAfterShrink(loans: seq<Loan>)
    requires |loans| == 5
    ensures TotalPages(|loans|, ItemsPerPage) == 1
    ensures PageSlice(loans, 2, ItemsPerPage) == []
    ensures FirstShown(2, ItemsPerPage) == 6 && LastShown(2, ItemsPerPage, |loans|) == 5
  {
    PastLastPageShowsNothing(loans, 2, ItemsPerPage);
  }

  /** The component's state: the loans it was given, the page and the type filter. */
  class LoansTable {
    const loans: seq<Loan>
    var currentPage: int
    var filterType: string

    /** `filteredLoans` for the current filter. */
    function Filtered(): seq<Loan>
      reads this
    {
      FilteredLoans(loans, filterType)
    }

    /** `totalPages`. */
    function PageCount(): nat
      reads this
    {
      TotalPages(|Filtered()|, ItemsPerPage)
    }

    /** The current page is always in range. */
    ghost predicate Valid()
      reads this
    {
      PageInRange(currentPage, PageCount())
    }

    /** The state on first render: page 1, every loan shown. */
    constructor (loans: seq<Loan>)
      ensures Valid()
      ensures this.loans == loans && currentPage == 1 && filterType == AllTypes
      ensures Filtered() == loans
    {
      this.loans := loans;
      currentPage := 1;
      filterType := AllTypes;
    }

    /** `paginatedLoans`: at most five filtered loans, in order. */
    function PageRows(): (rows: seq<Loan>)
      requires Valid()
      reads this
      ensures |rows| <= ItemsPerPage
      ensures rows == Filtered()[(currentPage - 1) * ItemsPerPage..Min(currentPage * ItemsPerPage, |Filtered()|)]
    {
      InRangePage(Filtered(), currentPage, ItemsPerPage)
    }

    /** `handlePageChange(page)`: moves to `page` only when it is between 1 and
        `totalPages`; otherwise nothing changes. */
    method HandlePageChange(page: int)
      requires Valid()
      modifies this
      ensures Valid()
      ensures currentPage == if AcceptsPage(page, old(PageCount())) then page else old(currentPage)
      ensures filterType == old(filterType)
    {
      if page >= 1 && page <= PageCount() {
        currentPage := page;
      }
    }

    /** Choosing a loan type in the select: the filter changes and the table
        goes back to page 1. */
    method ChangeFilter(value: string)
      requires Valid()
      modifies this
      ensures Valid()
      ensures filterType == value && currentPage == 1
    {
      filterType := value;
      currentPage := 1;
    }
  }
}
