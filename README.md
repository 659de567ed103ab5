# Sprout SACCO web client: list processing and loan-form rules

This project models, in Dafny, the logic that runs inside the Sprout SACCO web
client. A SACCO is a savings and credit co-operative. The project proves the
promises that logic makes. It covers two groups of code.

- **The two tables.**
  - The member account matrix derives its savings, venture and loan columns
    from the members' accounts:
    - every type, sorted;
    - the "active" types held with a non-zero balance;
    - a three-way fallback for the visible columns.

    It also filters members by a case-insensitive search and by type
    selections, pages ten rows at a time and shows a five-button page window.
  - The member loan list filters by loan type, labels each loan's status and
    pages five rows at a time.
- **The loan workflow forms.**
  - The application schema and its initial values.
  - The administrator's amendment schema, which changes only the amount and
    always needs a note.
  - The guarantee-request form, which never offers the applicant as their own
    guarantor.

Both tables keep state that event handlers update. Each is a class: the
selections, search term and page are fields, and the handlers are methods with
`modifies this`. Each setter's contract gives the whole new state. The list a
table is given is a constant of the object, fixed when it is built. For that
fixed list the class invariant `Valid()` keeps the current page in range; a
list that changes under a mounted table is not modelled (see "Left out"). The
type lists are built by loops that collect into a set: `CollectTypes` and
`SortStrings` model them, each proved against a specification. The page-number
buttons are built by a loop that reassigns `pageNum`: `PageWindow` models it.
The filters, fallbacks, slices and schemas are expressions, so they are
functions with lemmas.

Modules, one per file:

| file | module | models |
|---|---|---|
| `wrappers.dfy` | `Wrappers` | `Option`, for values read with `?.` and `find` |
| `seqs.dfy` | `Seqs` | `filter`, the order-preserving subsequence relation, the insertion order of a `Set` |
| `strings.dfy` | `Strings` | lower-casing, `includes`, string order and `Array.from(set).sort()` |
| `pagination.dfy` | `Pagination` | page count, page slice, page-change guard and "Showing a to b" bounds, shared by both tables |
| `accounts_list.dfy` | `AccountsList` | `components/transactions/AccountsListTable.jsx` |
| `loans.dfy` | `Loans` | `components/loans/LoansTable.jsx` |
| `form_fields.dfy` | `FormFields` | the Yup field rules the forms share |
| `loan_application_form.dfy` | `LoanApplicationForm` | `forms/loanapplications/CreateLoanApplication.jsx` |
| `amendment_form.dfy` | `AmendmentForm` | `forms/loanapplications/AdminAmendLoanApplication.jsx` |
| `guarantee_request_form.dfy` | `GuaranteeRequestForm` | `forms/guaranteerequests/CreateGuaranteeRequest.jsx` |

Modelling choices:

- An account's balance enters the model only as the flag `nonZero`, meaning
  `parseFloat(balance) !== 0`. An unparseable balance is NaN, which counts as
  non-zero.
- The search and type-selection setters reset the page to 1. The reset
  happens in the `useEffect` at lines 186-188, not in the setters. React skips
  a state update to an equal string, so re-entering the same search term does
  not reset the page. A toggle always makes a new array, so it always does.
- The start-date rule compares the chosen day's local midnight with the instant
  the schema was created. That instant is a parameter, `schemaBuiltAt`.
  `StartDateAroundSchemaDay` proves a consequence: the day the schema was built
  is accepted only when it was built exactly at midnight.
- The signed-in member number may be undefined (`session?.user?.member_no`,
  hooks/authentication/useUserMemberNo.jsx:7). It is an `Option`. An undefined
  number differs from every profile's member, so no profile is excluded then.

## Model

| member | source | states |
|---|---|---|
| Seqs.Filter | components/transactions/AccountsListTable.jsx:117-140 | `filter` keeps exactly the elements that pass, in their original order (an order-preserving subsequence) |
| Seqs.FilterCount | components/loans/LoansTable.jsx:35 | `filter` keeps every occurrence of a passing element and none of a failing one |
| Seqs.FilterExt | components/transactions/AccountsListTable.jsx:117 | filtering with two predicates that agree on the elements gives the same list |
| Seqs.FilterKeepsAll | components/transactions/AccountsListTable.jsx:117 | a filter every element passes returns its input unchanged |
| Seqs.FilterNoDup | components/transactions/AccountsListTable.jsx:241 | filtering a list without repetitions gives one without repetitions |
| Seqs.SubseqElements | components/transactions/AccountsListTable.jsx:82 | a subsequence holds no element its source lacks and is no longer |
| Seqs.Distinct | components/loans/LoansTable.jsx:26 | the iteration order of a `Set` built from a list: the same elements, each once |
| Seqs.FirstIndex | components/loans/LoansTable.jsx:26 | the position of an element's first occurrence |
| Seqs.DistinctFirstAppearance | components/loans/LoansTable.jsx:26-27 | the `Set` lists its elements in increasing order of their first occurrence |
| Seqs.DistinctInFirstAppearanceOrder | components/loans/LoansTable.jsx:26-27 | the same order, stated for every pair of the `Set`'s elements at once |
| Strings.ToLower | components/transactions/AccountsListTable.jsx:118-121 | lower-casing keeps the length, character by character |
| Strings.ToLowerAt | components/transactions/AccountsListTable.jsx:118 | each character of the lower-cased string is the lower-cased character |
| Strings.ToLowerIdempotent | components/transactions/AccountsListTable.jsx:118 | lower-casing twice is lower-casing once |
| Strings.ContainsAt | components/transactions/AccountsListTable.jsx:120-121 | `includes` holds exactly when the term occurs at some position |
| Strings.LessIrreflexive | components/transactions/AccountsListTable.jsx:55 | the `sort()` order never puts a string before itself |
| Strings.LessAsymmetric | components/transactions/AccountsListTable.jsx:55 | the `sort()` order never puts two strings before each other |
| Strings.LessTransitive | components/transactions/AccountsListTable.jsx:55 | the `sort()` order is transitive |
| Strings.LessTotal | components/transactions/AccountsListTable.jsx:55 | the `sort()` order ranks any two different strings |
| Strings.Insert | components/transactions/AccountsListTable.jsx:55 | inserting into a sorted list keeps it sorted and adds exactly the new element |
| Strings.SortStrings | components/transactions/AccountsListTable.jsx:55 | `Array.from(types).sort()`: strictly ascending, exactly the set's elements |
| Strings.SortedUnique | components/transactions/AccountsListTable.jsx:55 | two strictly ascending lists of the same strings are equal, so the sorted result does not depend on the set's order |
| Strings.SubseqSorted | components/transactions/AccountsListTable.jsx:82 | filtering a sorted list keeps it sorted |
| Strings.StrictlySortedNoDup | components/transactions/AccountsListTable.jsx:55 | a strictly ascending list repeats nothing |
| Pagination.TotalPages | components/transactions/AccountsListTable.jsx:179 | `Math.ceil(n / perPage)`: the fewest pages that hold `n` rows (the loans table uses it at LoansTable.jsx line 40) |
| Pagination.NoPagesIffEmpty | components/transactions/AccountsListTable.jsx:178-179 | there are no pages exactly when there are no rows |
| Pagination.Slice | components/transactions/AccountsListTable.jsx:180-183 | `slice(start, end)`: always one contiguous run of the list, never longer than `end - start`; from a non-negative `start`, the run from `start` to `end` cut off at the list's end; empty when `end` does not come after `start` |
| Pagination.PageSlice | components/transactions/AccountsListTable.jsx:180-183 | the page slice holds at most `perPage` rows, from `(p-1)*perPage` up to `min(p*perPage, n)` (the loans table's is at LoansTable.jsx lines 41-44) |
| Pagination.InRangePage | components/loans/LoansTable.jsx:41-44 | on a page kept in range, the slice starts inside the list and is exactly `s[(p-1)*perPage .. min(p*perPage, n))`, at most `perPage` rows |
| Pagination.PastLastPageShowsNothing | components/loans/LoansTable.jsx:39-44 | a page past the last one shows no row, and its "Showing a to b" line has `a > b` |
| Pagination.PagesThroughPrefix | components/transactions/AccountsListTable.jsx:180-183 | the first `k` pages, joined, are the first `min(k*perPage, n)` rows |
| Pagination.PagesCover | components/transactions/AccountsListTable.jsx:180-183 | all pages, joined in order, are the whole list |
| Pagination.AcceptsPage | components/transactions/AccountsListTable.jsx:191 | the page-change guard `page >= 1 && page <= totalPages` (LoansTable.jsx line 48 has the same): an accepted page is in range, and no page is accepted when there are none |
| Pagination.LastShown | components/loans/LoansTable.jsx:192 | the "to" number of "Showing a to b of n" is `min(p*perPage, n)`, never above `n` |
| Pagination.ShowingMatchesPage | components/transactions/AccountsListTable.jsx:507-508 | on an accepted page, `1 <= a <= b <= n` and the page shows `b - a + 1` rows |
| AccountsList.DataOf | components/transactions/AccountsListTable.jsx:47 | `accountsList?.results \|\| accountsList \|\| []`: no member exactly when the list is not loaded or is empty |
| AccountsList.CollectTypes | components/transactions/AccountsListTable.jsx:51-54 | the nested `forEach` loops collect exactly the types some member holds (held with a non-zero balance, for the active lists at lines 76-81) |
| AccountsList.AllTypesOf | components/transactions/AccountsListTable.jsx:50-72 | each "all types" list holds a type exactly when some member has an account of it, once each, strictly ascending |
| AccountsList.ActiveOccurs | components/transactions/AccountsListTable.jsx:79 | a type held with a non-zero balance is a type held |
| AccountsList.ActiveTypesOf | components/transactions/AccountsListTable.jsx:75-103 | each "active types" list is the subsequence of the "all types" list holding exactly the types some account holds with a non-zero balance, and stays sorted |
| AccountsList.ActiveListFromAll | components/transactions/AccountsListTable.jsx:82 | given the right "all types" list, the active list holds every type held with a non-zero balance and nothing else |
| AccountsList.Visible | components/transactions/AccountsListTable.jsx:106-113 | the visible list is one of selected, active and all; the selection whenever it is non-empty; empty only when all three are |
| AccountsList.VisibleShown | components/transactions/AccountsListTable.jsx:106-113 | visible types: the selection if any; else the active types if any; else all types. They never repeat a type and show only types some member holds |
| AccountsList.MatchesSearch | components/transactions/AccountsListTable.jsx:118-121 | the empty term matches every member; a matching term is no longer than the member number or the name |
| AccountsList.MatchesTypes | components/transactions/AccountsListTable.jsx:123-137 | an empty selection passes every member; a non-empty one passes exactly the members with an account `getAccount` finds for some selected type |
| AccountsList.Keeps | components/transactions/AccountsListTable.jsx:117-139 | the per-member test: with no search and no selection every member passes |
| AccountsList.FilteredAccounts | components/transactions/AccountsListTable.jsx:116-147 | an order-preserving subsequence of the members that keeps exactly those matching the lower-cased search and every non-empty type selection |
| AccountsList.FilteredAccountsCount | components/transactions/AccountsListTable.jsx:116-140 | every copy of a member that passes is kept and every copy of one that fails is dropped |
| AccountsList.NoFilterKeepsAll | components/transactions/AccountsListTable.jsx:116-140 | with an empty search and no selection every member is kept, in order |
| AccountsList.SearchIgnoresCase | components/transactions/AccountsListTable.jsx:118 | a search term and its lower-cased form keep the same members |
| AccountsList.GetAccount | components/transactions/AccountsListTable.jsx:150-151 | `find`: nothing exactly when no account has the type; otherwise one of the accounts, of that type |
| AccountsList.GetAccountFirst | components/transactions/AccountsListTable.jsx:150-151 | `find` returns nothing exactly when no account has the type, and otherwise the first account that does |
| AccountsList.Toggle | components/transactions/AccountsListTable.jsx:239-243 | the toggled type's membership flips; every other type's is unchanged |
| AccountsList.ToggleShape | components/transactions/AccountsListTable.jsx:239-243 | an absent type is appended; a present one loses every occurrence, and the rest keep their order and multiplicity |
| AccountsList.ToggleTwice | components/transactions/AccountsListTable.jsx:239-243 | toggling twice restores the type's membership and every other type's; starting from an unselected type it restores the selection exactly |
| AccountsList.FilterDropLast | components/transactions/AccountsListTable.jsx:241 | a trailing element the filter rejects does not change its result |
| AccountsList.ToggleKeepsSelectionOk | components/transactions/AccountsListTable.jsx:235-243 | toggling an offered type keeps the selection within the offered types and free of repetitions |
| AccountsList.TypeHeaders | components/transactions/AccountsListTable.jsx:370-391 | two text cells per visible type |
| AccountsList.TypeHeadersAt | components/transactions/AccountsListTable.jsx:370-391 | the `k`-th type's cells are "{type} Account" then "{type} Balance", in the order of the visible list |
| AccountsList.HeaderRow | components/transactions/AccountsListTable.jsx:366-393 | the header row is `totalColumns` wide, starts with "Member No" and "Member Name" and holds only text |
| AccountsList.HeaderRowHeads | components/transactions/AccountsListTable.jsx:366-393 | after the two member heads come the savings, venture and loan type heads, in that order, each laid out by `TypeHeaders`; the last head is the empty expand head when a loan type is visible |
| AccountsList.TypePair | components/transactions/AccountsListTable.jsx:417-421 | under one type: the number and balance of the member's first account of that type (the one `find` returns), or two empty cells when no account has that type |
| AccountsList.TypeCells | components/transactions/AccountsListTable.jsx:416-446 | two cells per visible type, and every balance shown is one of the member's accounts of a listed type |
| AccountsList.TypeCellsAt | components/transactions/AccountsListTable.jsx:416-446 | the `k`-th type's two cells are `TypePair` of that type, in the order of the visible list |
| AccountsList.MemberRow | components/transactions/AccountsListTable.jsx:411-461 | a member row starts with the member's number and name, shows only the member's own accounts of visible types, and is one cell short of `totalColumns` when a loan type is visible |
| AccountsList.MemberRowShowsAccounts | components/transactions/AccountsListTable.jsx:411-446 | after number and name come the savings, venture and loan cells, in that order, each laid out by `TypeCells`, so each visible type the member holds shows that account's number and balance |
| AccountsList.TotalColumns | components/transactions/AccountsListTable.jsx:197-202 | `totalColumns` is at least 2, and exactly 2 only when no type is visible |
| AccountsList.PageWindow | components/transactions/AccountsListTable.jsx:522-533 | `min(5, totalPages)` consecutive pages, all pages when at most five; with the page in range every button is accepted and the current page is among them |
| AccountsList.AccountsTable.constructor | components/transactions/AccountsListTable.jsx:36-47 | first render: empty search and selections, page 1, type lists as defined over `accountsList?.results \|\| accountsList \|\| []` |
| AccountsList.AccountsTable.VisibleTypesShown | components/transactions/AccountsListTable.jsx:106-113 | the visible-column fallback, stated over the component's own lists |
| AccountsList.AccountsTable.TableWidth | components/transactions/AccountsListTable.jsx:197-202 | `totalColumns` is the width of the header row, at least the two member columns |
| AccountsList.AccountsTable.PageRows | components/transactions/AccountsListTable.jsx:180-183 | `paginatedAccounts` holds at most ten rows, `filtered[(p-1)*10 .. min(p*10, n))` |
| AccountsList.AccountsTable.SetSearchTerm | components/transactions/AccountsListTable.jsx:186-188 | a new search term goes back to page 1; selections are kept |
| AccountsList.AccountsTable.ToggleType | components/transactions/AccountsListTable.jsx:238-243 | the chosen category's selection is toggled, the others are kept, and the page goes back to 1 |
| AccountsList.AccountsTable.ClearFilters | components/transactions/AccountsListTable.jsx:168-175 | empties the search, selections and expanded rows, goes to page 1, and lists every member again |
| AccountsList.AccountsTable.HandlePageChange | components/transactions/AccountsListTable.jsx:190-194 | moves only to a page in `1..totalPages`; otherwise nothing changes |
| AccountsList.AccountsTable.PageButtons | components/transactions/AccountsListTable.jsx:504-537 | no button when there is at most one page, since the pagination bar is hidden then; otherwise `min(5, totalPages)` buttons, each a page `handlePageChange` accepts, the current page among them |
| Loans.TypesOf | components/loans/LoansTable.jsx:26 | `loans.map((item) => item.loan_type)`: one type per loan, and a string is among them exactly when some loan has that type |
| Loans.LoanTypes | components/loans/LoansTable.jsx:25-28 | the filter options start with "All" |
| Loans.LoanTypesOnce | components/loans/LoansTable.jsx:25-28 | after "All", each loan type that occurs appears exactly once, and nothing else |
| Loans.LoanTypesInFirstAppearanceOrder | components/loans/LoansTable.jsx:26-27 | after "All", the types come in the order of their first appearance among the loans |
| Loans.AsWrittenOptionsLookAlike | components/loans/LoansTable.jsx:114-118 | as written, the "All" option and the first loan type are different values that show the same empty text |
| Loans.OptionLabelsAsWritten | components/loans/LoansTable.jsx:114-118 | as written: one text per option, and every option shows the same text |
| Loans.OptionLabels | components/loans/LoansTable.jsx:114-118 | corrected: one text per option, and two different options never show the same text |
| Loans.OptionLabelsDistinguishOptions | components/loans/LoansTable.jsx:114-118 | corrected: when no loan is typed "All", all option texts differ |
| Loans.FilteredLoans | components/loans/LoansTable.jsx:33-36 | "All" gives the input; any other filter gives the order-preserving subsequence of every loan of that type |
| Loans.GetStatus | components/loans/LoansTable.jsx:54-57 | "Pending" exactly when not approved, "Active" exactly when approved and active, "Inactive" exactly when approved and inactive |
| Loans.PageNumbers | components/loans/LoansTable.jsx:204 | one button per page, numbered `1..totalPages`, each accepted by `handlePageChange` |
| Loans.KeptPageAfterShrink | components/loans/LoansTable.jsx:39-44 | with five loans and page 2 kept, there is one page, page 2 shows no row and the line reads "Showing 6 to 5 of 5" |
| Loans.LoansTable.constructor | components/loans/LoansTable.jsx:20-21 | first render: page 1, filter "All", every loan listed |
| Loans.LoansTable.PageRows | components/loans/LoansTable.jsx:41-44 | `paginatedLoans` holds at most five rows, `filtered[(p-1)*5 .. min(p*5, n))` |
| Loans.LoansTable.HandlePageChange | components/loans/LoansTable.jsx:47-51 | moves only to a page in `1..totalPages`; otherwise nothing changes |
| Loans.LoansTable.ChangeFilter | components/loans/LoansTable.jsx:107-110 | choosing a type sets the filter and goes back to page 1 |
| LoanApplicationForm.Accepts | forms/loanapplications/CreateLoanApplication.jsx:18-31 | accepted exactly when: a product is chosen; the amount is positive; the term is a positive whole number; the start day begins no earlier than the schema's creation; a frequency is chosen |
| LoanApplicationForm.Errors | forms/loanapplications/CreateLoanApplication.jsx:18-31 | each of the five fields is reported exactly when its value breaks that field's rule |
| LoanApplicationForm.InitialValues | forms/loanapplications/CreateLoanApplication.jsx:46-52 | `initialValues`: whenever the schema was built, the untouched form's errors are exactly product, amount, term and start date |
| LoanApplicationForm.InitialValuesRejected | forms/loanapplications/CreateLoanApplication.jsx:46-52 | the untouched form fails on product, amount, term and start date, and on nothing else |
| LoanApplicationForm.FrequencyChoicesPass | forms/loanapplications/CreateLoanApplication.jsx:133-134 | the enabled "monthly" option and the default pass the frequency rule; the disabled placeholder would not |
| LoanApplicationForm.StartDateAroundSchemaDay | forms/loanapplications/CreateLoanApplication.jsx:27-29 | earlier days always fail, later days always pass, and the schema's own day passes only if it was built exactly at midnight |
| AmendmentForm.Errors | forms/loanapplications/AdminAmendLoanApplication.jsx:22-28 | the amount is reported exactly when it is blank or not above zero; the note exactly when it is empty |
| AmendmentForm.Accepts | forms/loanapplications/AdminAmendLoanApplication.jsx:22-28 | accepted exactly when the amount is positive and the note is not empty, whether or not the amount changed |
| AmendmentForm.InitialValues | forms/loanapplications/AdminAmendLoanApplication.jsx:35-38 | the form starts from the application's current amount, blank when it is missing or zero, and an empty note |
| AmendmentForm.UntouchedRejected | forms/loanapplications/AdminAmendLoanApplication.jsx:35-38 | an untouched amendment form always fails, for want of a note |
| AmendmentForm.NoteOnlyAmendment | forms/loanapplications/AdminAmendLoanApplication.jsx:6 | keeping the amount and writing only a note is accepted exactly when the note is non-empty and the current amount is positive |
| GuaranteeRequestForm.Selectable | forms/guaranteerequests/CreateGuaranteeRequest.jsx:18-20 | no profile of the signed-in member survives; every other profile survives, every occurrence, in order |
| GuaranteeRequestForm.Members | forms/guaranteerequests/CreateGuaranteeRequest.jsx:53-54 | one option value per profile, and a string is a value exactly when some profile has it as `member` |
| GuaranteeRequestForm.OptionValues | forms/guaranteerequests/CreateGuaranteeRequest.jsx:52-57 | the select's values: the empty placeholder, then one value per selectable profile, which are exactly the member numbers of the profiles other than the signed-in member's |
| GuaranteeRequestForm.ChosenGuarantorIsNotApplicant | forms/guaranteerequests/CreateGuaranteeRequest.jsx:52-57 | a chosen non-empty guarantor is some profile's member and never the signed-in member |
| GuaranteeRequestForm.InitialValues | forms/guaranteerequests/CreateGuaranteeRequest.jsx:24-27 | `initialValues`: the request names the application's reference, and its guarantor is the select's placeholder value whatever the profiles and session |

## Left out

- Rendering is not modelled beyond the content of the account matrix's
  header and member rows. Layout, the popover `open*` flags, the loading
  branches, the "No members found." and "No loans found." texts, and links
  are left out. A balance cell is the account it shows (`BalanceOf`), not
  its formatted text.
- Formatting is not modelled: `formatBalance` with `toLocaleString`,
  `toFixed`, and the status colours of `getStatusColor`. These are
  presentation only.
- Row expansion (`toggleRow`, the expanded loan details) is not modelled. Its
  only trigger, the expand button, is commented out (lines 449-461), so
  `expandedRows` stays the empty map the invariant states.
- The HTTP calls on submit are not modelled: `createLoanApplication`,
  `amendLoanApplication`, `createGuaranteeRequest`, toasts and navigation.
  They are network I/O.
- Fetching loan products and guarantor profiles is not modelled. The fetched
  data enters as parameters.
- Strings.ToLower: lower-cases ASCII letters only. JavaScript's
  `toLowerCase` also folds other scripts. Unicode case tables are outside the
  model.
- Strings.Less: compares characters. JavaScript's `sort()` compares UTF-16
  code units. The two orders differ only for characters outside the Basic
  Multilingual Plane.
- `parseFloat` is not modelled. A balance is reduced to the `nonZero` flag
  that the active-type lists test.
- A missing account list, loan list or profile list is treated as empty.
  The source does the same: it still renders the search box, "Clear All" and
  the "No members found." row for a missing account list, the "No loans
  found." card for a missing loan list, and the guarantor select's
  placeholder for missing profiles. The model treats `undefined` and `[]`
  alike.
- GuaranteeRequestForm.Members: a profile's `member` is taken as a string. A
  profile whose `member` is missing would give an option with no `value`
  attribute, so its value would be its text " - <member_name>". With no
  signed-in member number such a profile is dropped instead, because
  `undefined !== undefined` is false.
- The list a table is given is fixed for the life of the object. In the
  source `accountsList` and `loans` are props: a refetch can hand a mounted
  table a new list while its page, filter and selections persist, and nothing
  resets the page then. A shrunken list can leave the page past the last one
  (an empty page, "Showing 6 to 5 of 5"; `KeptPageAfterShrink` and
  `PastLastPageShowsNothing` state what that page shows) and a selection can
  keep types that are no longer offered. Neither a new list arriving nor the
  render between a setter and its page-reset effect is modelled, so
  `Valid()`, which keeps the page in range and the selections offered, holds
  only for a fixed list.
- AmendmentForm.InitialValues: `x || ""` is modelled as if the amount were a
  number, so zero becomes blank. If the server sends a decimal string such as
  "0.00", it stays "0.00" and Yup reads it as 0. Both are rejected alike.
- No member is needed to show that the amendment record has only
  `requested_amount` and `amendment_note`. `AmendValues` has no other field, so
  no other field can be amended.
- FormFields.NumberField: a number input's value is a mathematical real, not
  an IEEE double. For the finite values a number input yields, `positive()`
  and `integer()` decide alike on both; rounding, infinities and NaN are
  outside the model.
- Yup's parsing of a date string is not modelled. The date input's value is
  taken as a calendar day read at local midnight, which is how Yup parses a
  `YYYY-MM-DD` string.
- The "Previous" and "Next" buttons are not modelled separately. Each calls
  `handlePageChange(currentPage ∓ 1)` and is covered by `HandlePageChange`.

## Findings

| source | as written | input that shows it | evidently intended | confidence | as-written member | corrected member |
|---|---|---|---|---|---|---|
| components/loans/LoansTable.jsx:116 | each option's text is `{type.name}`, but the options are strings, so every text is undefined and renders empty | any loan list with one loan, e.g. a loan typed "Emergency": the options "All" and "Emergency" both show no text | `{type}`, so each option shows its loan type | high; not executed | Loans.AsWrittenOptionsLookAlike | Loans.OptionLabelsDistinguishOptions |
