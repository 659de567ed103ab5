/** The member account matrix (`AccountsListTable`): one row per member, with
    an account column and a balance column for every visible savings, venture
    and loan type, a search box, a multi-select type filter per category and
    pages of ten rows. */
module AccountsList {

  import opened Wrappers
  import opened Seqs
  import opened Strings
  import opened Pagination

  const ItemsPerPage: nat := 10

  /** One account tuple `[account_no, type, balance]`. `nonZero` says whether
      `parseFloat(balance) !== 0`; an unparseable balance is NaN, which counts
      as non-zero. */
  datatype Account = Account(accountNo: string, accType: string, nonZero: bool)

  /** One member of the account list. */
  datatype Member = Member(
    memberNo: string,
    memberName: string,
    savingsAccounts: seq<Account>,
    ventureAccounts: seq<Account>,
    loanAccounts: seq<Account>)

  /** The three account categories; each has its own columns and type filter. */
  datatype Category = Savings | Ventures | Loans

  function AccountsOf(m: Member, cat: Category): seq<Account>
  {
    match cat
    case Savings => m.savingsAccounts
    case Ventures => m.ventureAccounts
    case Loans => m.loanAccounts
  }

  /** The `accountsList` prop: an API page carrying `results`, a bare array,
      or nothing yet. */
  datatype AccountsListProp = NotLoaded | Plain(members: seq<Member>) | Paged(results: seq<Member>)

  /** `accountsList?.results || accountsList || []`: a list not loaded yet
      gives no member, just as an empty list does. */
  function DataOf(prop: AccountsListProp): (data: seq<Member>)
    ensures data == [] <==> prop == NotLoaded || prop == Plain([]) || prop == Paged([])
  {
    match prop
    case NotLoaded => []
    case Plain(members) => members
    case Paged(results) => results
  }

  // ---------------------------------------------------------------------------
  // Column types

  /** The account counts for the list being built: any account, or (for the
      active types) only one whose balance is not zero. */
  predicate Qualifies(a: Account, onlyNonZero: bool)
  {
    !onlyNonZero || a.nonZero
  }

  /** Some account in `accs` has type `t` (and a non-zero balance, if asked). */
  ghost predicate TypeAmong(accs: seq<Account>, t: string, onlyNonZero: bool)
  {
    exists a :: a in accs && a.accType == t && Qualifies(a, onlyNonZero)
  }

  /** Some member of `data` has an account of type `t` in category `cat`
      (with a non-zero balance, if asked). */
  ghost predicate TypeOccurs(data: seq<Member>, cat: Category, t: string, onlyNonZero: bool)
  {
    exists m :: m in data && TypeAmong(AccountsOf(m, cat), t, onlyNonZero)
  }

  lemma TypeAmongSnoc(accs: seq<Account>, j: nat, t: string, onlyNonZero: bool)
    requires j < |accs|
    ensures TypeAmong(accs[..j + 1], t, onlyNonZero) <==>
            TypeAmong(accs[..j], t, onlyNonZero) || (accs[j].accType == t && Qualifies(accs[j], onlyNonZero))
  {
    assert accs[..j + 1] == accs[..j] + [accs[j]];
  }

  lemma TypeOccursSnoc(data: seq<Member>, i: nat, cat: Category, t: string, onlyNonZero: bool)
    requires i < |data|
    ensures TypeOccurs(data[..i + 1], cat, t, onlyNonZero) <==>
            TypeOccurs(data[..i], cat, t, onlyNonZero) || TypeAmong(AccountsOf(data[i], cat), t, onlyNonZero)
  {
    assert data[..i + 1] == data[..i] + [data[i]];
  }

  /** A type held with a non-zero balance is a type held. */
  lemma ActiveOccurs(data: seq<Member>, cat: Category, t: string)
    requires TypeOccurs(data, cat, t, true)
    ensures TypeOccurs(data, cat, t, false)
  {
    var m :| m in data && TypeAmong(AccountsOf(m, cat), t, true);
    var a :| a in AccountsOf(m, cat) && a.accType == t && Qualifies(a, true);
    assert Qualifies(a, false);
  }

  /** The `forEach` over members and their accounts that adds each type (only
      those with a non-zero balance, if asked) to a `Set`. */
  method CollectTypes(data: seq<Member>, cat: Category, onlyNonZero: bool) returns (types: set<string>)
    ensures forall t :: t in types <==> TypeOccurs(data, cat, t, onlyNonZero)
  {
    types := {};
    var i := 0;
    while i < |data|
      invariant 0 <= i <= |data|
      invariant forall t :: t in types <==> TypeOccurs(data[..i], cat, t, onlyNonZero)
    {
      var accs := AccountsOf(data[i], cat);
      var j := 0;
      while j < |accs|
        invariant 0 <= j <= |accs|
        invariant forall t :: t in types <==>
          TypeOccurs(data[..i], cat, t, onlyNonZero) || TypeAmong(accs[..j], t, onlyNonZero)
      {
        if Qualifies(accs[j], onlyNonZero) {
          types := types + {accs[j].accType};
        }
        forall t ensures TypeAmong(accs[..j + 1], t, onlyNonZero) <==>
          TypeAmong(accs[..j], t, onlyNonZero) || (accs[j].accType == t && Qualifies(accs[j], onlyNonZero))
        {
          TypeAmongSnoc(accs, j, t, onlyNonZero);
        }
        j := j + 1;
      }
      assert accs[..j] == accs;
      forall t ensures TypeOccurs(data[..i + 1], cat, t, onlyNonZero) <==>
        TypeOccurs(data[..i], cat, t, onlyNonZero) || TypeAmong(accs, t, onlyNonZero)
      {
        TypeOccursSnoc(data, i, cat, t, onlyNonZero);
      }
      i := i + 1;
    }
    assert data[..i] == data;
  }

  /** What `allSavingsTypes`, `allVentureTypes` and `allLoanTypes` hold: every
      type some member has an account of, once, ascending. */
  ghost predicate IsTypeList(all: seq<string>, data: seq<Member>, cat: Category)
  {
    StrictlySorted(all) && forall t :: t in all <==> TypeOccurs(data, cat, t, false)
  }

  /** `Array.from(types).sort()` over the types of one category. */
  method AllTypesOf(data: seq<Member>, cat: Category) returns (all: seq<string>)
    ensures StrictlySorted(all) && NoDup(all)
    ensures forall t :: t in all <==> TypeOccurs(data, cat, t, false)
  {
    var types := CollectTypes(data, cat, false);
    all := SortStrings(types);
    StrictlySortedNoDup(all);
  }

  /** What `activeSavingsTypes` and its siblings hold: the types of `all` that
      some account holds with a non-zero balance, in the order of `all`. */
  ghost predicate IsActiveList(active: seq<string>, all: seq<string>, data: seq<Member>, cat: Category)
  {
    Subseq(active, all) && StrictlySorted(active) &&
    forall t :: t in active <==> TypeOccurs(data, cat, t, true)
  }

  /** `all.filter((type) => active.has(type))`, where `active` collects the
      types held with a non-zero balance. */
  method ActiveTypesOf(data: seq<Member>, cat: Category, all: seq<string>) returns (active: seq<string>)
    ensures active == Filter(all, (t: string) => TypeOccurs(data, cat, t, true))
    ensures Subseq(active, all)
    ensures StrictlySorted(all) ==> StrictlySorted(active)
    ensures forall t :: t in active <==> t in all && TypeOccurs(data, cat, t, true)
  {
    var held := CollectTypes(data, cat, true);
    active := Filter(all, (t: string) => t in held);
    FilterExt(all, (t: string) => t in held, (t: string) => TypeOccurs(data, cat, t, true));
    if StrictlySorted(all) { SubseqSorted(active, all); }
  }

  /** Given the full type list, the active list holds exactly the types held
      with a non-zero balance: nothing held only at zero, nothing missing. */
  lemma ActiveListFromAll(data: seq<Member>, cat: Category, all: seq<string>, active: seq<string>)
    requires IsTypeList(all, data, cat)
    requires active == Filter(all, (t: string) => TypeOccurs(data, cat, t, true))
    ensures IsActiveList(active, all, data, cat)
  {
    SubseqSorted(active, all);
    forall t | TypeOccurs(data, cat, t, true) ensures t in all {
      ActiveOccurs(data, cat, t);
    }
  }

  /** `selected.length > 0 ? selected : active.length > 0 ? active : all`:
      one of the three lists, the selection whenever there is one, and empty
      only when all three are. */
  function Visible(selected: seq<string>, active: seq<string>, all: seq<string>): (v: seq<string>)
    ensures v == selected || v == active || v == all
    ensures |selected| > 0 ==> v == selected
    ensures v == [] <==> selected == [] && active == [] && all == []
  {
    if |selected| > 0 then selected else if |active| > 0 then active else all
  }

  /** The columns `Visible` picks from correct lists repeat no type and show
      only types some member holds; with nothing selected they are the types
      held with a non-zero balance, or, if there are none, every type held. */
  lemma VisibleShown(data: seq<Member>, cat: Category, selected: seq<string>, active: seq<string>, all: seq<string>)
    requires IsTypeList(all, data, cat) && IsActiveList(active, all, data, cat) && SelectionOk(selected, all)
    ensures NoDup(Visible(selected, active, all))
    ensures forall t :: t in Visible(selected, active, all) ==> TypeOccurs(data, cat, t, false)
    ensures |selected| > 0 ==> Visible(selected, active, all) == selected
    ensures |selected| == 0 && (exists t :: TypeOccurs(data, cat, t, true)) ==>
              forall t :: t in Visible(selected, active, all) <==> TypeOccurs(data, cat, t, true)
    ensures |selected| == 0 && (forall t :: !TypeOccurs(data, cat, t, true)) ==>
              forall t :: t in Visible(selected, active, all) <==> TypeOccurs(data, cat, t, false)
  {
    StrictlySortedNoDup(all);
    StrictlySortedNoDup(active);
    forall t | t in active ensures TypeOccurs(data, cat, t, false) {
      ActiveOccurs(data, cat, t);
    }
    if exists t :: TypeOccurs(data, cat, t, true) {
      var t :| TypeOccurs(data, cat, t, true);
      assert t in active;
    }
    if |active| > 0 {
      assert TypeOccurs(data, cat, active[0], true);
    }
  }

  // ---------------------------------------------------------------------------
  // Filtering members

  /** The search term, lower-cased, occurs in the lower-cased member number or
      name. The empty term matches every member; a longer term than both the
      number and the name matches none. */
  predicate MatchesSearch(m: Member, term: string): (ok: bool)
    ensures term == "" ==> ok
    ensures ok ==> |term| <= |m.memberNo| || |term| <= |m.memberName|
  {
    var q := ToLower(term);
    ContainsAt(ToLower(m.memberNo), q);
    ContainsAt(ToLower(m.memberName), q);
    Contains(ToLower(m.memberNo), q) || Contains(ToLower(m.memberName), q)
  }

  /** One category's type filter: nothing selected, or some account of a
      selected type. With a selection, a member passes exactly when one of
      the selected columns shows an account of theirs. */
  predicate MatchesTypes(accs: seq<Account>, selected: seq<string>): (ok: bool)
    ensures |selected| == 0 ==> ok
    ensures |selected| > 0 ==> (ok <==> exists t :: t in selected && GetAccount(accs, t).Some?)
  {
    assert forall a :: a in accs && a.accType in selected ==> GetAccount(accs, a.accType).Some?;
    |selected| == 0 || exists a :: a in accs && a.accType in selected
  }

  /** The test `filteredAccounts` applies to each member; with no search and
      no selection every member passes. */
  predicate Keeps(m: Member, term: string, selSavings: seq<string>, selVentures: seq<string>, selLoans: seq<string>): (ok: bool)
    ensures term == "" && selSavings == [] && selVentures == [] && selLoans == [] ==> ok
  {
    MatchesSearch(m, term) &&
    MatchesTypes(m.savingsAccounts, selSavings) &&
    MatchesTypes(m.ventureAccounts, selVentures) &&
    MatchesTypes(m.loanAccounts, selLoans)
  }

  /** `filteredAccounts`: the members that pass the search and every
      category's type filter, in their original order. */
  function FilteredAccounts(data: seq<Member>, term: string,
                            selSavings: seq<string>, selVentures: seq<string>, selLoans: seq<string>): (r: seq<Member>)
    ensures Subseq(r, data)
    ensures forall m :: m in r <==> m in data && Keeps(m, term, selSavings, selVentures, selLoans)
  {
    Filter(data, (m: Member) => Keeps(m, term, selSavings, selVentures, selLoans))
  }

  /** `filter` keeps every copy of a member that passes and none of one that
      does not: a member listed twice and kept is listed twice. */
  lemma FilteredAccountsCount(data: seq<Member>, term: string,
                              selSavings: seq<string>, selVentures: seq<string>, selLoans: seq<string>)
    ensures forall m :: multiset(FilteredAccounts(data, term, selSavings, selVentures, selLoans))[m] ==
              if Keeps(m, term, selSavings, selVentures, selLoans) then multiset(data)[m] else 0
  {
    FilterCount(data, (m: Member) => Keeps(m, term, selSavings, selVentures, selLoans));
  }

  /** With an empty search and no type selected, every member is listed, in order. */
  lemma NoFilterKeepsAll(data: seq<Member>)
    ensures FilteredAccounts(data, "", [], [], []) == data
  {
    forall m | m in data ensures Keeps(m, "", [], [], []) {
      assert ToLower("") == "";
      assert Contains(ToLower(m.memberNo), "");
    }
    FilterKeepsAll(data, (m: Member) => Keeps(m, "", [], [], []));
  }

  /** The search ignores case: a term and its lower-cased form list the same members. */
  lemma SearchIgnoresCase(data: seq<Member>, term: string,
                          selSavings: seq<string>, selVentures: seq<string>, selLoans: seq<string>)
    ensures FilteredAccounts(data, ToLower(term), selSavings, selVentures, selLoans)
         == FilteredAccounts(data, term, selSavings, selVentures, selLoans)
  {
    ToLowerIdempotent(term);
    FilterExt(data,
      (m: Member) => Keeps(m, ToLower(term), selSavings, selVentures, selLoans),
      (m: Member) => Keeps(m, term, selSavings, selVentures, selLoans));
  }

  /** `accounts.find(([, t]) => t === type)`: the first account of the type,
      if any; nothing exactly when no account has the type. */
  function GetAccount(accs: seq<Account>, t: string): (r: Option<Account>)
    ensures r.None? <==> forall a :: a in accs ==> a.accType != t
    ensures r.Some? ==> r.value in accs && r.value.accType == t
  {
    if accs == [] then None
    else if accs[0].accType == t then Some(accs[0])
    else GetAccount(accs[1..], t)
  }

  /** The lookup finds nothing exactly when no account has the type, and
      otherwise the account at the first position holding that type. */
  lemma {:induction false} GetAccountFirst(accs: seq<Account>, t: string)
    ensures GetAccount(accs, t).None? <==> forall a :: a in accs ==> a.accType != t
    ensures GetAccount(accs, t).Some? ==>
              exists k :: 0 <= k < |accs| && accs[k] == GetAccount(accs, t).value && accs[k].accType == t &&
                          forall j :: 0 <= j < k ==> accs[j].accType != t
  {
    if accs != [] && accs[0].accType != t {
      var tail := accs[1..];
      GetAccountFirst(tail, t);
      assert forall a :: a in accs ==> a == accs[0] || a in tail;
      var r := GetAccount(tail, t);
      if r.Some? {
        var k :| 0 <= k < |tail| && tail[k] == r.value && tail[k].accType == t &&
                 forall j :: 0 <= j < k ==> tail[j].accType != t;
        assert accs[k + 1] == r.value;
        assert forall j :: 1 <= j < k + 1 ==> accs[j] == tail[j - 1];
      }
    } else if accs != [] {
      assert accs[0] in accs;
    }
  }

  // ---------------------------------------------------------------------------
  // Type selection

  /** `prev.includes(type) ? prev.filter((t) => t !== type) : [...prev, type]`. */
  function Toggle(prev: seq<string>, t: string): (r: seq<string>)
    ensures t in r <==> t !in prev
    ensures forall x :: x != t ==> (x in r <==> x in prev)
  {
    if t in prev then Filter(prev, (x: string) => x != t) else prev + [t]
  }

  /** Toggling a type appends it when absent; when present, every occurrence
      goes and the other types keep their order. */
  lemma ToggleShape(prev: seq<string>, t: string)
    ensures t !in prev ==> Toggle(prev, t) == prev + [t]
    ensures t in prev ==>
              Subseq(Toggle(prev, t), prev) &&
              forall x :: multiset(Toggle(prev, t))[x] == if x == t then 0 else multiset(prev)[x]
  {
    FilterCount(prev, (x: string) => x != t);
  }

  /** Toggling twice restores whether the type is selected and leaves every other
      type as it was; on an unselected type it restores the selection exactly. */
  lemma ToggleTwice(prev: seq<string>, t: string)
    ensures t in Toggle(Toggle(prev, t), t) <==> t in prev
    ensures forall x :: x != t ==> (x in Toggle(Toggle(prev, t), t) <==> x in prev)
    ensures t !in prev ==> Toggle(Toggle(prev, t), t) == prev
  {
    if t !in prev {
      assert t in prev + [t];
      FilterKeepsAll(prev, (x: string) => x != t);
      assert Filter(prev + [t], (x: string) => x != t) == Filter(prev, (x: string) => x != t) by {
        FilterDropLast(prev, t, (x: string) => x != t);
      }
    }
  }

  /** A last element the predicate rejects does not change the filter. */
  lemma {:induction false} FilterDropLast(s: seq<string>, y: string, p: string -> bool)
    requires !p(y)
    ensures Filter(s + [y], p) == Filter(s, p)
  {
    if s == [] {
      assert [y][1..] == [];
    } else {
      assert (s + [y])[1..] == s[1..] + [y];
      FilterDropLast(s[1..], y, p);
    }
  }

  /** The selection invariant: only offered types, none twice. */
  predicate SelectionOk(selected: seq<string>, all: seq<string>)
  {
    NoDup(selected) && forall t :: t in selected ==> t in all
  }

  /** Toggling an offered type keeps a selection free of repetitions and
      within the offered types. */
  lemma ToggleKeepsSelectionOk(prev: seq<string>, all: seq<string>, t: string)
    requires SelectionOk(prev, all) && t in all
    ensures SelectionOk(Toggle(prev, t), all)
  {
    if t in prev {
      FilterNoDup(prev, (x: string) => x != t);
    } else {
      var r := prev + [t];
      forall i, j | 0 <= i < j < |r| ensures r[i] != r[j] {
        if j == |prev| { assert r[i] == prev[i] && prev[i] in prev; }
        else { assert r[i] == prev[i] && r[j] == prev[j]; }
      }
    }
  }

  // ---------------------------------------------------------------------------
  // Columns

  /** One table cell: plain text, or the formatted balance of an account. */
  datatype Cell = Text(text: string) | BalanceOf(account: Account)

  /** The two header cells of one type: `{type} Account` and `{type} Balance`. */
  function HeadPair(t: string): seq<Cell>
  {
    [Text(t + " Account"), Text(t + " Balance")]
  }

  /** Two text cells per type. */
  function TypeHeaders(types: seq<string>): (cells: seq<Cell>)
    ensures |cells| == 2 * |types|
    ensures forall c :: c in cells ==> c.Text?
  {
    if types == [] then [] else HeadPair(types[0]) + TypeHeaders(types[1..])
  }

  /** The `k`-th type's two header cells stand at `2 * k`, in the order of the types. */
  lemma {:induction false} TypeHeadersAt(types: seq<string>)
    ensures forall k :: 0 <= k < |types| ==> TypeHeaders(types)[2 * k .. 2 * k + 2] == HeadPair(types[k])
  {
    if types != [] {
      var rest := TypeHeaders(types[1..]);
      TypeHeadersAt(types[1..]);
      var cells := TypeHeaders(types);
      assert cells == HeadPair(types[0]) + rest + [];
      forall k | 1 <= k < |types| ensures cells[2 * k .. 2 * k + 2] == HeadPair(types[k]) {
        assert types[k] == types[1..][k - 1];
        PairAt(HeadPair(types[0]), rest, [], 2 * (k - 1));
      }
    }
  }

  /** The header row: member number, member name, two cells per visible type,
      and an empty expand-column head when a loan type is visible. It is
      `totalColumns` wide and holds text only; `HeaderRowHeads` says which
      text heads each type's columns. */
  function HeaderRow(vs: seq<string>, vv: seq<string>, vl: seq<string>): (h: seq<Cell>)
    ensures |h| == TotalColumns(vs, vv, vl)
    ensures h[0] == Text("Member No") && h[1] == Text("Member Name")
    ensures forall c :: c in h ==> c.Text?
  {
    [Text("Member No"), Text("Member Name")] + TypeHeaders(vs) + TypeHeaders(vv) + TypeHeaders(vl) +
    (if |vl| > 0 then [Text("")] else [])
  }

  /** After the two member columns come the heads of the visible savings,
      venture and loan types, in that order, each list's heads as
      `TypeHeaders` lays them out ("{type} Account", "{type} Balance" per type,
      by `TypeHeadersAt`); the last head is the empty expand-column head when
      a loan type is visible. */
  lemma HeaderRowHeads(vs: seq<string>, vv: seq<string>, vl: seq<string>)
    ensures HeaderRow(vs, vv, vl)[2 .. 2 + 2 * |vs|] == TypeHeaders(vs)
    ensures HeaderRow(vs, vv, vl)[2 + 2 * |vs| .. 2 + 2 * |vs| + 2 * |vv|] == TypeHeaders(vv)
    ensures HeaderRow(vs, vv, vl)[2 + 2 * |vs| + 2 * |vv| .. 2 + 2 * |vs| + 2 * |vv| + 2 * |vl|] == TypeHeaders(vl)
    ensures |vl| > 0 ==> HeaderRow(vs, vv, vl)[|HeaderRow(vs, vv, vl)| - 1] == Text("")
  {
    var head := [Text("Member No"), Text("Member Name")];
    var hs, hv, hl := TypeHeaders(vs), TypeHeaders(vv), TypeHeaders(vl);
    var tail: seq<Cell> := if |vl| > 0 then [Text("")] else [];
    Parts(head, hs, hv, hl, tail);
  }

  /** The two cells under one type: the member's first account of it
      (number and balance), or two empty cells when they hold none. */
  function TypePair(accs: seq<Account>, t: string): (pair: seq<Cell>)
    ensures |pair| == 2
    ensures forall k :: 0 <= k < |accs| && accs[k].accType == t && (forall j :: 0 <= j < k ==> accs[j].accType != t) ==>
              pair == [Text(accs[k].accountNo), BalanceOf(accs[k])]
    ensures (forall a :: a in accs ==> a.accType != t) ==> pair == [Text(""), Text("")]
  {
    GetAccountFirst(accs, t);
    match GetAccount(accs, t)
    case Some(a) => [Text(a.accountNo), BalanceOf(a)]
    case None => [Text(""), Text("")]
  }

  /** The cells under each type, two per type in the order of the types, and
      every balance shown is one of the member's accounts of a listed type. */
  function TypeCells(accs: seq<Account>, types: seq<string>): (cells: seq<Cell>)
    ensures |cells| == 2 * |types|
    ensures forall c :: c in cells && c.BalanceOf? ==> c.account in accs && c.account.accType in types
  {
    if types == [] then [] else TypePair(accs, types[0]) + TypeCells(accs, types[1..])
  }

  /** Under the `k`-th type stand its two cells, in the order of the types. */
  lemma {:induction false} TypeCellsAt(accs: seq<Account>, types: seq<string>)
    ensures forall k :: 0 <= k < |types| ==> TypeCells(accs, types)[2 * k .. 2 * k + 2] == TypePair(accs, types[k])
  {
    if types != [] {
      var rest := TypeCells(accs, types[1..]);
      TypeCellsAt(accs, types[1..]);
      var cells := TypeCells(accs, types);
      assert cells == TypePair(accs, types[0]) + rest + [];
      forall k | 1 <= k < |types| ensures cells[2 * k .. 2 * k + 2] == TypePair(accs, types[k]) {
        assert types[k] == types[1..][k - 1];
        PairAt(TypePair(accs, types[0]), rest, [], 2 * (k - 1));
      }
    }
  }

  /** One member's row. The expand-button cell is commented out in the
      table, so the row is one cell short of `totalColumns` whenever a loan
      type is visible. It starts with the member's number and name, and every
      balance in it is one of the member's own accounts of a visible type;
      `MemberRowShowsAccounts` says which account stands under each type. */
  function MemberRow(m: Member, vs: seq<string>, vv: seq<string>, vl: seq<string>): (row: seq<Cell>)
    ensures |row| + (if |vl| > 0 then 1 else 0) == TotalColumns(vs, vv, vl)
    ensures row[0] == Text(m.memberNo) && row[1] == Text(m.memberName)
    ensures forall c :: c in row && c.BalanceOf? ==>
              c.account in m.savingsAccounts + m.ventureAccounts + m.loanAccounts &&
              c.account.accType in vs + vv + vl
  {
    [Text(m.memberNo), Text(m.memberName)] +
    TypeCells(m.savingsAccounts, vs) + TypeCells(m.ventureAccounts, vv) + TypeCells(m.loanAccounts, vl)
  }

  /** After the member's number and name come the cells of the visible
      savings, venture and loan types, in that order, each list's cells as
      `TypeCells` lays them out: under each type the member holds, the
      account `getAccount` finds (its number, then its balance), and two
      empty cells under a type they do not hold (`TypeCellsAt`, `TypePair`). */
  lemma MemberRowShowsAccounts(m: Member, vs: seq<string>, vv: seq<string>, vl: seq<string>)
    ensures MemberRow(m, vs, vv, vl)[2 .. 2 + 2 * |vs|] == TypeCells(m.savingsAccounts, vs)
    ensures MemberRow(m, vs, vv, vl)[2 + 2 * |vs| .. 2 + 2 * |vs| + 2 * |vv|] == TypeCells(m.ventureAccounts, vv)
    ensures MemberRow(m, vs, vv, vl)[2 + 2 * |vs| + 2 * |vv| .. 2 + 2 * |vs| + 2 * |vv| + 2 * |vl|] == TypeCells(m.loanAccounts, vl)
  {
    var head := [Text(m.memberNo), Text(m.memberName)];
    var cs := TypeCells(m.savingsAccounts, vs);
    var cv := TypeCells(m.ventureAccounts, vv);
    var cl := TypeCells(m.loanAccounts, vl);
    Parts(head, cs, cv, cl, []);
    assert head + cs + cv + cl + [] == head + cs + cv + cl;
  }

  /** The three middle parts of a concatenation of five are where they were put. */
  lemma Parts<T>(a: seq<T>, b: seq<T>, c: seq<T>, d: seq<T>, e: seq<T>)
    ensures (a + b + c + d + e)[|a| .. |a| + |b|] == b
    ensures (a + b + c + d + e)[|a| + |b| .. |a| + |b| + |c|] == c
    ensures (a + b + c + d + e)[|a| + |b| + |c| .. |a| + |b| + |c| + |d|] == d
  {
    var s := a + b + c + d + e;
    assert forall i :: 0 <= i < |b| ==> s[|a| + i] == b[i];
    assert forall i :: 0 <= i < |c| ==> s[|a| + |b| + i] == c[i];
    assert forall i :: 0 <= i < |d| ==> s[|a| + |b| + |c| + i] == d[i];
  }

  /** Two cells of a middle part keep their place, shifted by the front part. */
  lemma PairAt<T>(front: seq<T>, mid: seq<T>, back: seq<T>, i: nat)
    requires i + 2 <= |mid|
    ensures (front + mid + back)[|front| + i .. |front| + i + 2] == mid[i .. i + 2]
  {
    assert (front + mid + back)[|front| + i] == mid[i];
    assert (front + mid + back)[|front| + i + 1] == mid[i + 1];
  }

  /** `totalColumns`, the `colSpan` of the "No members found." row: at least
      the two member columns, and exactly two only when no type is visible. */
  function TotalColumns(vs: seq<string>, vv: seq<string>, vl: seq<string>): (n: nat)
    ensures n >= 2
    ensures n == 2 <==> vs == [] && vv == [] && vl == []
  {
    2 + |vs| * 2 + |vv| * 2 + |vl| * 2 + (if |vl| > 0 then 1 else 0)
  }

  // ---------------------------------------------------------------------------
  // Page buttons

  /** The page-number buttons: `Math.min(5, totalPages)` consecutive pages,
      every page when there are at most five, otherwise a window that holds the
      current page, starting at page 1 near the front, ending at the last page
      near the back and centred on the current page in between. */
  method PageWindow(currentPage: int, totalPages: nat) returns (window: seq<int>)
    ensures |window| == Min(5, totalPages)
    ensures |window| > 0 ==>
              window[0] == if currentPage <= 3 || totalPages <= 5 then 1
                           else if currentPage >= totalPages - 2 then totalPages - 4
                           else currentPage - 2
    ensures forall k :: 0 < k < |window| ==> window[k] == window[k - 1] + 1
    ensures totalPages <= 5 ==> forall k :: 0 <= k < |window| ==> window[k] == k + 1
    ensures PageInRange(currentPage, totalPages) ==>
              (forall k :: 0 <= k < |window| ==> AcceptsPage(window[k], totalPages)) &&
              (totalPages > 0 ==> currentPage in window)
  {
    ghost var first :=
      if totalPages <= 5 || currentPage <= 3 then 1
      else if currentPage >= totalPages - 2 then totalPages - 4
      else currentPage - 2;
    var n := Min(5, totalPages);
    window := [];
    var i := 0;
    while i < n
      invariant 0 <= i <= n
      invariant |window| == i
      invariant forall k :: 0 <= k < i ==> window[k] == first + k
    {
      var pageNum := currentPage;
      if totalPages <= 5 {
        pageNum := i + 1;
      } else if currentPage <= 3 {
        pageNum := i + 1;
      } else if currentPage >= totalPages - 2 {
        pageNum := totalPages - 4 + i;
      } else {
        pageNum := currentPage - 2 + i;
      }
      window := window + [pageNum];
      i := i + 1;
    }
    if PageInRange(currentPage, totalPages) && totalPages > 0 {
      assert window[currentPage - first] == currentPage;
    }
  }

  // ---------------------------------------------------------------------------
  // Component state

  /** The component's state: the list it was given, the type lists memoised
      from it, and the search, selection, expanded-row and page state. */
  class AccountsTable {
    const data: seq<Member>
    const allSavingsTypes: seq<string>
    const allVentureTypes: seq<string>
    const allLoanTypes: seq<string>
    const activeSavingsTypes: seq<string>
    const activeVentureTypes: seq<string>
    const activeLoanTypes: seq<string>

    var searchTerm: string
    var selectedSavingsTypes: seq<string>
    var selectedVentureTypes: seq<string>
    var selectedLoanTypes: seq<string>
    var expandedRows: map<string, bool>
    var currentPage: int

    function AllTypes(cat: Category): seq<string>
    {
      match cat
      case Savings => allSavingsTypes
      case Ventures => allVentureTypes
      case Loans => allLoanTypes
    }

    function ActiveTypes(cat: Category): seq<string>
    {
      match cat
      case Savings => activeSavingsTypes
      case Ventures => activeVentureTypes
      case Loans => activeLoanTypes
    }

    function SelectedTypes(cat: Category): seq<string>
      reads this
    {
      match cat
      case Savings => selectedSavingsTypes
      case Ventures => selectedVentureTypes
      case Loans => selectedLoanTypes
    }

    /** `filteredAccounts` for the current search and selections. */
    function Filtered(): seq<Member>
      reads this
    {
      FilteredAccounts(data, searchTerm, selectedSavingsTypes, selectedVentureTypes, selectedLoanTypes)
    }

    /** `totalPages`. */
    function PageCount(): nat
      reads this
    {
      TotalPages(|Filtered()|, ItemsPerPage)
    }

    /** The memoised type lists are what their definitions say. They depend
        only on the list the table was given. */
    ghost predicate ListsOk()
    {
      IsTypeList(allSavingsTypes, data, Savings) &&
      IsTypeList(allVentureTypes, data, Ventures) &&
      IsTypeList(allLoanTypes, data, Loans) &&
      IsActiveList(activeSavingsTypes, allSavingsTypes, data, Savings) &&
      IsActiveList(activeVentureTypes, allVentureTypes, data, Ventures) &&
      IsActiveList(activeLoanTypes, allLoanTypes, data, Loans)
    }

    /** Each selection holds offered types without repetition. */
    predicate SelectionsOk()
      reads this
    {
      SelectionOk(selectedSavingsTypes, allSavingsTypes) &&
      SelectionOk(selectedVentureTypes, allVentureTypes) &&
      SelectionOk(selectedLoanTypes, allLoanTypes)
    }

    /** What holds between any two events: the memoised lists are right,
        selections hold offered types without repetition, no row is expanded,
        and the current page is in range. */
    ghost predicate Valid()
      reads this
    {
      ListsOk() && SelectionsOk() && expandedRows == map[] &&
      PageInRange(currentPage, PageCount())
    }

    /** The state on first render. */
    constructor (accountsList: AccountsListProp)
      ensures Valid()
      ensures data == DataOf(accountsList)
      ensures searchTerm == "" && currentPage == 1
      ensures SelectedTypes(Savings) == [] && SelectedTypes(Ventures) == [] && SelectedTypes(Loans) == []
    {
      var d := DataOf(accountsList);
      var allS := AllTypesOf(d, Savings);
      var allV := AllTypesOf(d, Ventures);
      var allL := AllTypesOf(d, Loans);
      var actS := ActiveTypesOf(d, Savings, allS);
      var actV := ActiveTypesOf(d, Ventures, allV);
      var actL := ActiveTypesOf(d, Loans, allL);
      ActiveListFromAll(d, Savings, allS, actS);
      ActiveListFromAll(d, Ventures, allV, actV);
      ActiveListFromAll(d, Loans, allL, actL);
      data := d;
      allSavingsTypes, allVentureTypes, allLoanTypes := allS, allV, allL;
      activeSavingsTypes, activeVentureTypes, activeLoanTypes := actS, actV, actL;
      searchTerm := "";
      selectedSavingsTypes, selectedVentureTypes, selectedLoanTypes := [], [], [];
      expandedRows := map[];
      currentPage := 1;
    }

    /** The columns shown for a category. */
    function VisibleTypes(cat: Category): seq<string>
      reads this
    {
      Visible(SelectedTypes(cat), ActiveTypes(cat), AllTypes(cat))
    }

    /** The visible columns repeat no type and show only types some member
        holds. With a selection they are the selection; with none they are the
        types held with a non-zero balance, or, if there are none, every type
        held. */
    lemma VisibleTypesShown(cat: Category)
      requires Valid()
      ensures NoDup(VisibleTypes(cat))
      ensures forall t :: t in VisibleTypes(cat) ==> TypeOccurs(data, cat, t, false)
      ensures |SelectedTypes(cat)| > 0 ==> VisibleTypes(cat) == SelectedTypes(cat)
      ensures |SelectedTypes(cat)| == 0 && (exists t :: TypeOccurs(data, cat, t, true)) ==>
                forall t :: t in VisibleTypes(cat) <==> TypeOccurs(data, cat, t, true)
      ensures |SelectedTypes(cat)| == 0 && (forall t :: !TypeOccurs(data, cat, t, true)) ==>
                forall t :: t in VisibleTypes(cat) <==> TypeOccurs(data, cat, t, false)
    {
      assert SelectionOk(SelectedTypes(cat), AllTypes(cat)) by {
        match cat
        case Savings =>
        case Ventures =>
        case Loans =>
      }
      assert IsTypeList(AllTypes(cat), data, cat) && IsActiveList(ActiveTypes(cat), AllTypes(cat), data, cat) by {
        match cat
        case Savings =>
        case Ventures =>
        case Loans =>
      }
      VisibleShown(data, cat, SelectedTypes(cat), ActiveTypes(cat), AllTypes(cat));
    }

    /** `totalColumns`: the width of the header row for the visible types. */
    function TableWidth(): (n: nat)
      reads this
      ensures n == |HeaderRow(VisibleTypes(Savings), VisibleTypes(Ventures), VisibleTypes(Loans))|
      ensures n >= 2
    {
      TotalColumns(VisibleTypes(Savings), VisibleTypes(Ventures), VisibleTypes(Loans))
    }

    /** `paginatedAccounts`: at most ten listed members, in list order. */
    function PageRows(): (rows: seq<Member>)
      requires Valid()
      reads this
      ensures |rows| <= ItemsPerPage
      ensures rows == Filtered()[(currentPage - 1) * ItemsPerPage..Min(currentPage * ItemsPerPage, |Filtered()|)]
    {
      InRangePage(Filtered(), currentPage, ItemsPerPage)
    }

    /** Typing in the search box. A new term sends the table back to page 1. */
    method SetSearchTerm(term: string)
      requires Valid()
      modifies this
      ensures Valid()
      ensures searchTerm == term
      ensures currentPage == if term != old(searchTerm) then 1 else old(currentPage)
      ensures selectedSavingsTypes == old(selectedSavingsTypes)
      ensures selectedVentureTypes == old(selectedVentureTypes)
      ensures selectedLoanTypes == old(selectedLoanTypes)
      ensures expandedRows == old(expandedRows)
    {
      if term != searchTerm {
        searchTerm := term;
        currentPage := 1;
      }
    }

    /** Clicking an offered type in a category's type list. The selection is
        toggled and the table goes back to page 1. */
    method ToggleType(cat: Category, t: string)
      requires Valid() && t in AllTypes(cat)
      modifies this
      ensures Valid()
      ensures SelectedTypes(cat) == Toggle(old(SelectedTypes(cat)), t)
      ensures forall c :: c != cat ==> SelectedTypes(c) == old(SelectedTypes(c))
      ensures searchTerm == old(searchTerm) && expandedRows == old(expandedRows)
      ensures currentPage == 1
    {
      ToggleKeepsSelectionOk(SelectedTypes(cat), AllTypes(cat), t);
      match cat {
        case Savings => selectedSavingsTypes := Toggle(selectedSavingsTypes, t);
        case Ventures => selectedVentureTypes := Toggle(selectedVentureTypes, t);
        case Loans => selectedLoanTypes := Toggle(selectedLoanTypes, t);
      }
      currentPage := 1;
    }

    /** "Clear All": no search, no selection, no expanded row, page 1; every
        member is listed again. */
    method ClearFilters()
      requires Valid()
      modifies this
      ensures Valid()
      ensures searchTerm == "" && expandedRows == map[] && currentPage == 1
      ensures SelectedTypes(Savings) == [] && SelectedTypes(Ventures) == [] && SelectedTypes(Loans) == []
      ensures Filtered() == data
    {
      searchTerm := "";
      selectedSavingsTypes, selectedVentureTypes, selectedLoanTypes := [], [], [];
      expandedRows := map[];
      currentPage := 1;
      NoFilterKeepsAll(data);
    }

    /** `handlePageChange(page)`: moves to `page` only when it is between 1 and
        `totalPages`; otherwise nothing changes. */
    method HandlePageChange(page: int)
      requires Valid()
      modifies this
      ensures Valid()
      ensures currentPage == if AcceptsPage(page, old(PageCount())) then page else old(currentPage)
      ensures searchTerm == old(searchTerm) && expandedRows == old(expandedRows)
      ensures selectedSavingsTypes == old(selectedSavingsTypes)
      ensures selectedVentureTypes == old(selectedVentureTypes)
      ensures selectedLoanTypes == old(selectedLoanTypes)
    {
      if page >= 1 && page <= PageCount() {
        currentPage := page;
      }
    }

    /** The page-number buttons for the current state. The pagination bar is
        shown only when there is more than one page; then each button is a
        page `HandlePageChange` accepts, and the current page is among them. */
    method PageButtons() returns (buttons: seq<int>)
      requires Valid()
      ensures PageCount() <= 1 ==> buttons == []
      ensures PageCount() > 1 ==> |buttons| == Min(5, PageCount()) && currentPage in buttons
      ensures forall k :: 0 <= k < |buttons| ==> AcceptsPage(buttons[k], PageCount())
    {
      if PageCount() > 1 {
        buttons := PageWindow(currentPage, PageCount());
      } else {
        buttons := [];
      }
    }
  }
}
