/** The catalog query of the consolidated draft repository
    (internal/repository/pointling_repo/pointling_repository.go), which builds
    its SQL text and argument list by appending one filter at a time. */
module DraftQuery {
  import opened Entities
  import opened Store
  import ItemRepo
  import Seqs

  const SelectItems := "SELECT item_id, category, slot, asset_id, name, rarity, price_points, unlock_level FROM items WHERE 1=1"
  const OrderByName := " ORDER BY name ASC"

  /** The condition on `column` bound to the placeholder `$n`. */
  function Clause(column: string, n: int): (clause: string)
  {
    " AND " + column + " = $" + Decimal(n)
  }

  /** The reference rendering of the WHERE conditions: the filters in order,
      the first bound to `$k+1`, each next one to the next placeholder. */
  function Conditions(columns: seq<string>, k: int): string
  {
    if columns == [] then "" else Clause(columns[0], k + 1) + Conditions(columns[1..], k + 1)
  }

  /** The conditions of two runs of filters, the second numbered on from the
      first, are the conditions of the whole run. */
  lemma {:induction false} ConditionsConcat(a: seq<string>, b: seq<string>, k: int)
    ensures Conditions(a + b, k) == Conditions(a, k) + Conditions(b, k + |a|)
    decreases |a|
  {
    if a == [] {
      assert a + b == b;
    } else {
      assert (a + b)[0] == a[0] && (a + b)[1..] == a[1..] + b;
      ConditionsConcat(a[1..], b, k + 1);
    }
  }

  lemma {:induction false} ConditionsSingle(column: string, k: int)
    ensures Conditions([column], k) == Clause(column, k + 1)
  {
    assert [column][1..] == [];
  }

  /** The i-th condition (from 0) is bound to placeholder `$k+i+1`: the
      placeholders run consecutively in the order of the filters. */
  lemma {:induction false} ConditionsAt(columns: seq<string>, k: int, i: nat)
    requires i < |columns|
    ensures Conditions(columns, k) ==
            Conditions(columns[..i], k) + Clause(columns[i], k + i + 1) + Conditions(columns[i + 1..], k + i + 1)
  {
    Seqs.SplitAt(columns, i);
    ConditionsConcat(columns[..i], [columns[i]] + columns[i + 1..], k);
    ConditionsConcat([columns[i]], columns[i + 1..], k + i);
    ConditionsSingle(columns[i], k + i);
  }

  /** The filters after `column` is considered: one more pair when it is given. */
  function AddFilter(given: seq<(string, string)>, column: string, value: Option<string>): seq<(string, string)>
  {
    if value.Some? then given + [(column, value.value)] else given
  }

  /** The filters that are given, in the order category, rarity, slot, as
      (column, value) pairs. */
  function Given(category: Option<string>, rarity: Option<string>, slot: Option<string>): (given: seq<(string, string)>)
    ensures |given| == (if category.Some? then 1 else 0) + (if rarity.Some? then 1 else 0) + (if slot.Some? then 1 else 0)
  {
    AddFilter(AddFilter(AddFilter([], "category", category), "rarity", rarity), "slot", slot)
  }

  function Columns(given: seq<(string, string)>): seq<string>
  {
    if given == [] then [] else Columns(given[..|given| - 1]) + [given[|given| - 1].0]
  }

  function Values(given: seq<(string, string)>): seq<string>
  {
    if given == [] then [] else Values(given[..|given| - 1]) + [given[|given| - 1].1]
  }

  /** One more filter adds its column and its value at the end. */
  lemma ColumnsValuesAppend(given: seq<(string, string)>, column: string, value: string)
    ensures Columns(given + [(column, value)]) == Columns(given) + [column]
    ensures Values(given + [(column, value)]) == Values(given) + [value]
    ensures |Values(given)| == |Columns(given)| == |given|
  {
    assert (given + [(column, value)])[..|given|] == given;
    ColumnsValuesLength(given);
  }

  lemma {:induction false} ColumnsValuesLength(given: seq<(string, string)>)
    ensures |Values(given)| == |Columns(given)| == |given|
  {
    if given != [] {
      ColumnsValuesLength(given[..|given| - 1]);
    }
  }

  /** `ListItems`' query building: one clause and one argument per given filter,
      the placeholders `$1..$n` numbered in the order the arguments are passed,
      and the fixed ordering by name at the end. */
  method BuildListQuery(category: Option<string>, rarity: Option<string>, slot: Option<string>)
    returns (query: string, args: seq<string>)
    ensures var given := Given(category, rarity, slot);
            query == SelectItems + Conditions(Columns(given), 0) + OrderByName && args == Values(given)
    ensures |args| == (if category.Some? then 1 else 0) + (if rarity.Some? then 1 else 0) + (if slot.Some? then 1 else 0)
  {
    ghost var given: seq<(string, string)> := [];
    query := SelectItems;
    args := [];
    assert query == SelectItems + Conditions(Columns(given), 0);
    if category.Some? {
      Extend(SelectItems, query, args, given, "category", category.value);
      query := query + Clause("category", |args| + 1);
      args := args + [category.value];
    }
    given := AddFilter(given, "category", category);
    if rarity.Some? {
      Extend(SelectItems, query, args, given, "rarity", rarity.value);
      query := query + Clause("rarity", |args| + 1);
      args := args + [rarity.value];
    }
    given := AddFilter(given, "rarity", rarity);
    if slot.Some? {
      Extend(SelectItems, query, args, given, "slot", slot.value);
      query := query + Clause("slot", |args| + 1);
      args := args + [slot.value];
    }
    given := AddFilter(given, "slot", slot);
    query := query + OrderByName;
  }

  /** One step of the query building keeps the text and the arguments equal to
      the reference rendering of the filters appended so far. */
  lemma {:induction false} Extend(base: string, query: string, args: seq<string>, given: seq<(string, string)>, column: string, value: string)
    requires query == base + Conditions(Columns(given), 0) && args == Values(given)
    ensures query + Clause(column, |args| + 1) == base + Conditions(Columns(given + [(column, value)]), 0)
    ensures args + [value] == Values(given + [(column, value)])
  {
    ColumnsValuesAppend(given, column, value);
    ExtendText(base, query, Columns(given), column);
  }

  lemma {:induction false} ExtendText(base: string, query: string, columns: seq<string>, column: string)
    requires query == base + Conditions(columns, 0)
    ensures query + Clause(column, |columns| + 1) == base + Conditions(columns + [column], 0)
  {
    var before, clause := Conditions(columns, 0), Clause(column, |columns| + 1);
    ConditionsConcat(columns, [column], 0);
    ConditionsSingle(column, |columns|);
    assert query + clause == base + (before + clause);
  }

  /** `ListItems`: builds the query and runs it over the catalog. The text is
      not interpreted as SQL: the rows are the ones `ItemRepo.List` selects for
      the same filters. They come back ordered by name; the model keeps them
      as a set. */
  method ListItems(t: Tables, category: Option<string>, rarity: Option<string>, slot: Option<string>, faults: Faults)
    returns (r: Result<set<Item>>)
    requires Keyed(t)
    ensures r.Err? <==> ListItemsQuery in faults
    ensures r.Ok? ==> forall it :: it in r.value <==>
              it.id in t.items && t.items[it.id] == it && ItemRepo.Matches(it, category, rarity, slot)
  {
    var query, args := BuildListQuery(category, rarity, slot);
    r := ItemRepo.List(t, category, rarity, slot, faults);
  }
}
