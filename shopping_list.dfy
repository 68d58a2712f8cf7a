/** The shopping-list download: the RecipeIngredient rows of the recipes in a
    user's cart, grouped by (ingredient name, measurement unit), amounts
    summed, sorted by name and rendered as a numbered plain-text list. */
module ShoppingList {
  import opened Common
  import opened Text
  import opened Models

  /** The grouping key of the query: ingredient name and measurement unit. */
  datatype Key = Key(name: string, unit: string)

  /** One joined row as the query reads it. */
  datatype Item = Item(key: Key, amount: nat)

  /** One group of the result, with its summed amount. */
  datatype Line = Line(key: Key, total: nat)

  /** Order of the report: by name, and by unit among equal names. */
  predicate KeyLess(a: Key, b: Key) {
    Less(a.name, b.name) || (a.name == b.name && Less(a.unit, b.unit))
  }

  lemma KeyLessIrreflexive(a: Key)
    ensures !KeyLess(a, a)
  {
    LessIrreflexive(a.name);
    LessIrreflexive(a.unit);
  }

  lemma KeyLessTransitive(a: Key, b: Key, c: Key)
    requires KeyLess(a, b) && KeyLess(b, c)
    ensures KeyLess(a, c)
  {
    if Less(a.name, b.name) && Less(b.name, c.name) {
      LessTransitive(a.name, b.name, c.name);
    } else if a.name == b.name && b.name == c.name {
      LessTransitive(a.unit, b.unit, c.unit);
    }
  }

  lemma KeyLessTotal(a: Key, b: Key)
    ensures a == b || KeyLess(a, b) || KeyLess(b, a)
  {
    LessTotal(a.name, b.name);
    LessTotal(a.unit, b.unit);
  }

  predicate StrictlySorted(lines: seq<Line>) {
    forall i, j :: 0 <= i < j < |lines| ==> KeyLess(lines[i].key, lines[j].key)
  }

  function LineKeys(lines: seq<Line>): set<Key> {
    set l | l in lines :: l.key
  }

  function ItemKeys(items: seq<Item>): set<Key> {
    set it | it in items :: it.key
  }

  /** SUM(amount) over the items of one group. */
  function Total(items: seq<Item>, k: Key): nat
    decreases |items|
  {
    if |items| == 0 then 0
    else (if items[0].key == k then items[0].amount else 0) + Total(items[1..], k)
  }

  /** The summed totals of the lines carrying key `k`. */
  function LineTotal(lines: seq<Line>, k: Key): nat
    decreases |lines|
  {
    if |lines| == 0 then 0
    else (if lines[0].key == k then lines[0].total else 0) + LineTotal(lines[1..], k)
  }

  /** Adds one item to a sorted list of groups: into its group if there is one,
      otherwise as a new group at its place in the order. */
  function Insert(lines: seq<Line>, it: Item): seq<Line>
    decreases |lines|
  {
    if |lines| == 0 then [Line(it.key, it.amount)]
    else if lines[0].key == it.key then [Line(it.key, lines[0].total + it.amount)] + lines[1..]
    else if KeyLess(it.key, lines[0].key) then [Line(it.key, it.amount)] + lines
    else [lines[0]] + Insert(lines[1..], it)
  }

  /** The grouped, ordered query result: `.values(name, unit).annotate(Sum).order_by(name)`. */
  function Group(items: seq<Item>): seq<Line>
    decreases |items|
  {
    if |items| == 0 then [] else Insert(Group(items[1..]), items[0])
  }

  lemma {:induction false} InsertSorted(lines: seq<Line>, it: Item)
    requires StrictlySorted(lines)
    ensures StrictlySorted(Insert(lines, it))
    ensures LineKeys(Insert(lines, it)) == LineKeys(lines) + {it.key}
    decreases |lines|
  {
    var r := Insert(lines, it);
    if |lines| == 0 {
    } else if lines[0].key == it.key {
      assert r == [Line(it.key, lines[0].total + it.amount)] + lines[1..];
      assert lines == [lines[0]] + lines[1..];
      forall i, j | 0 <= i < j < |r| ensures KeyLess(r[i].key, r[j].key) {
        assert r[i].key == lines[i].key && r[j].key == lines[j].key;
      }
    } else if KeyLess(it.key, lines[0].key) {
      forall i, j | 0 <= i < j < |r| ensures KeyLess(r[i].key, r[j].key) {
        if i == 0 && j > 1 {
          KeyLessTransitive(it.key, lines[0].key, lines[j - 1].key);
        }
      }
    } else {
      var tail := lines[1..];
      assert StrictlySorted(tail);
      InsertSorted(tail, it);
      KeyLessTotal(it.key, lines[0].key);
      assert lines == [lines[0]] + tail;
      InsertBehindHead(lines[0], tail, it);
    }
  }

  /** Inserting behind a head whose key is below the item's and below every
      other key keeps the head first and the result sorted. */
  lemma InsertBehindHead(head: Line, tail: seq<Line>, it: Item)
    requires StrictlySorted([head] + tail) && StrictlySorted(Insert(tail, it))
    requires KeyLess(head.key, it.key)
    requires LineKeys(Insert(tail, it)) == LineKeys(tail) + {it.key}
    ensures StrictlySorted([head] + Insert(tail, it))
    ensures LineKeys([head] + Insert(tail, it)) == LineKeys([head] + tail) + {it.key}
  {
    var lines := [head] + tail;
    var rt := Insert(tail, it);
    var r := [head] + rt;
    forall x | x in LineKeys(tail) ensures KeyLess(head.key, x) {
      var l :| l in tail && l.key == x;
      var m :| 0 <= m < |tail| && tail[m] == l;
      assert lines[0] == head && lines[m + 1] == l;
    }
    forall j | 0 <= j < |rt| ensures KeyLess(head.key, rt[j].key) {
      assert rt[j].key in LineKeys(rt);
    }
    forall i, j | 0 <= i < j < |r| ensures KeyLess(r[i].key, r[j].key) {
      if i > 0 {
        assert r[i] == rt[i - 1] && r[j] == rt[j - 1];
      } else {
        assert r[j] == rt[j - 1];
      }
    }
    assert LineKeys(r) == {head.key} + LineKeys(rt);
    assert LineKeys(lines) == {head.key} + LineKeys(tail);
  }

  lemma {:induction false} InsertTotal(lines: seq<Line>, it: Item, k: Key)
    ensures LineTotal(Insert(lines, it), k) == LineTotal(lines, k) + (if k == it.key then it.amount else 0)
    decreases |lines|
  {
    if |lines| == 0 {
    } else if lines[0].key == it.key {
      var r := Insert(lines, it);
      assert r[1..] == lines[1..];
    } else if KeyLess(it.key, lines[0].key) {
      var r := Insert(lines, it);
      assert r[1..] == lines;
    } else {
      var r := Insert(lines, it);
      InsertTotal(lines[1..], it, k);
      assert r[1..] == Insert(lines[1..], it);
    }
  }

  /** Grouping yields one line per key of the input, in strictly increasing key
      order, and the lines of a key add up to that key's total. */
  lemma {:induction false} GroupCorrect(items: seq<Item>)
    ensures StrictlySorted(Group(items))
    ensures LineKeys(Group(items)) == ItemKeys(items)
    ensures forall k :: LineTotal(Group(items), k) == Total(items, k)
    decreases |items|
  {
    if |items| > 0 {
      GroupCorrect(items[1..]);
      InsertSorted(Group(items[1..]), items[0]);
      forall k ensures LineTotal(Group(items), k) == Total(items, k) {
        InsertTotal(Group(items[1..]), items[0], k);
      }
      assert items == [items[0]] + items[1..];
      assert ItemKeys(items) == ItemKeys(items[1..]) + {items[0].key};
    }
  }

  /** In a strictly sorted list a key's total is the total of its single line. */
  lemma {:induction false} LineTotalOfSorted(lines: seq<Line>, i: nat)
    requires StrictlySorted(lines) && i < |lines|
    ensures LineTotal(lines, lines[i].key) == lines[i].total
    decreases |lines|
  {
    var tail := lines[1..];
    assert StrictlySorted(tail);
    if i == 0 {
      LineTotalAbsent(tail, lines[0].key);
    } else {
      LineTotalOfSorted(tail, i - 1);
      if lines[0].key == lines[i].key {
        KeyLessIrreflexive(lines[i].key);
      }
    }
  }

  /** A sorted list whose first key is greater than `k` has no line for `k`. */
  lemma {:induction false} LineTotalAbsent(lines: seq<Line>, k: Key)
    requires forall j :: 0 <= j < |lines| ==> KeyLess(k, lines[j].key)
    ensures LineTotal(lines, k) == 0
    decreases |lines|
  {
    if |lines| > 0 {
      KeyLessIrreflexive(k);
      LineTotalAbsent(lines[1..], k);
    }
  }

  /** Every item key of the input names one ingredient: equal names mean equal units. */
  predicate NamesDetermineUnits(items: seq<Item>) {
    forall i, j :: 0 <= i < |items| && 0 <= j < |items| && items[i].key.name == items[j].key.name ==>
      items[i].key.unit == items[j].key.unit
  }

  /** The grouped result: exactly one line per distinct (name, unit) of the input,
      each carrying the sum of that group's amounts, in ascending name order
      (strictly ascending when names determine units). */
  lemma ShoppingListLines(items: seq<Item>)
    ensures var lines := Group(items);
      && (forall i, j :: 0 <= i < j < |lines| ==> lines[i].key != lines[j].key)
      && (forall k :: k in ItemKeys(items) <==> exists i :: 0 <= i < |lines| && lines[i].key == k)
      && (forall i :: 0 <= i < |lines| ==> lines[i].total == Total(items, lines[i].key))
      && (forall i, j :: 0 <= i < j < |lines| ==>
            Less(lines[i].key.name, lines[j].key.name) || lines[i].key.name == lines[j].key.name)
      && (NamesDetermineUnits(items) ==>
            forall i, j :: 0 <= i < j < |lines| ==> Less(lines[i].key.name, lines[j].key.name))
  {
    var lines := Group(items);
    GroupCorrect(items);
    forall i, j | 0 <= i < j < |lines| ensures lines[i].key != lines[j].key {
      KeyLessIrreflexive(lines[i].key);
    }
    forall k ensures k in ItemKeys(items) <==> exists i :: 0 <= i < |lines| && lines[i].key == k {
      if k in ItemKeys(items) {
        assert k in LineKeys(lines);
        var l :| l in lines && l.key == k;
        var i :| 0 <= i < |lines| && lines[i] == l;
      }
      if exists i :: 0 <= i < |lines| && lines[i].key == k {
        var i :| 0 <= i < |lines| && lines[i].key == k;
        assert lines[i] in lines;
        assert k in LineKeys(lines);
      }
    }
    forall i | 0 <= i < |lines| ensures lines[i].total == Total(items, lines[i].key) {
      LineTotalOfSorted(lines, i);
    }
    if NamesDetermineUnits(items) {
      forall i, j | 0 <= i < j < |lines| ensures Less(lines[i].key.name, lines[j].key.name) {
        assert lines[i] in lines && lines[j] in lines;
        assert lines[i].key in ItemKeys(items) && lines[j].key in ItemKeys(items);
        var a :| a in items && a.key == lines[i].key;
        var b :| b in items && b.key == lines[j].key;
        var ia :| 0 <= ia < |items| && items[ia] == a;
        var ib :| 0 <= ib < |items| && items[ib] == b;
        LessIrreflexive(lines[i].key.unit);
      }
    }
  }

  // ------------------------------------------------------------------ report

  /** `f'{num}. {name} - {total} {unit}.'` */
  function FormatLine(num: nat, l: Line): string {
    NatToString(num) + ". " + l.key.name + " - " + NatToString(l.total) + " " + l.key.unit + "."
  }

  /** `enumerate(lines, start=start)` rendered line by line. */
  function Numbered(lines: seq<Line>, start: nat): (r: seq<string>)
    ensures |r| == |lines|
    ensures forall k :: 0 <= k < |lines| ==> r[k] == FormatLine(start + k, lines[k])
    decreases |lines|
  {
    if |lines| == 0 then [] else [FormatLine(start, lines[0])] + Numbered(lines[1..], start + 1)
  }

  /** The text of the downloaded shopping list for the given joined rows. */
  function Report(items: seq<Item>): string {
    JoinLines(Numbered(Group(items), 1))
  }

  predicate NoNewline(s: string) {
    forall i :: 0 <= i < |s| ==> s[i] != '\n'
  }

  /** Names and units free of newlines, as the report layout needs. */
  predicate PrintableKeys(items: seq<Item>) {
    forall i :: 0 <= i < |items| ==> NoNewline(items[i].key.name) && NoNewline(items[i].key.unit)
  }

  lemma FormatLineIsLine(num: nat, l: Line)
    requires NoNewline(l.key.name) && NoNewline(l.key.unit)
    ensures IsLine(FormatLine(num, l))
    ensures FormatLine(num, l)[|FormatLine(num, l)| - 1] == '.'
  {
    var s := FormatLine(num, l);
    var a, b := NatToString(num), NatToString(l.total);
    assert s == a + ". " + l.key.name + " - " + b + " " + l.key.unit + ".";
    forall i | 0 <= i < |s| ensures s[i] != '\n' {
      var p1 := |a| + 2;
      var p2 := p1 + |l.key.name| + 3;
      var p3 := p2 + |b| + 1;
      if i < |a| {
        assert s[i] == a[i];
        assert IsDigit(a[i]);
      } else if i < p1 {
      } else if i < p1 + |l.key.name| {
        assert s[i] == l.key.name[i - p1];
      } else if i < p2 {
      } else if i < p2 + |b| {
        assert s[i] == b[i - p2];
        assert IsDigit(b[i - p2]);
      } else if i < p3 {
      } else if i < p3 + |l.key.unit| {
        assert s[i] == l.key.unit[i - p3];
      }
    }
  }

  /** The report splits back into exactly the numbered lines: line k (from 1)
      is `"k. name - total unit."`, the lines are separated by single newlines,
      and the text does not end with a newline. */
  lemma ReportLayout(items: seq<Item>)
    requires PrintableKeys(items)
    ensures var lines := Group(items); var text := Report(items);
      && SplitLines(text) == Numbered(lines, 1)
      && (forall k :: 0 <= k < |lines| ==> SplitLines(text)[k] == FormatLine(k + 1, lines[k]))
      && (|text| > 0 ==> text[|text| - 1] == '.')
  {
    var lines := Group(items);
    var numbered := Numbered(lines, 1);
    GroupCorrect(items);
    forall k | 0 <= k < |numbered| ensures IsLine(numbered[k]) && numbered[k][|numbered[k]| - 1] == '.' {
      assert lines[k] in lines;
      assert lines[k].key in ItemKeys(items);
      var it :| it in items && it.key == lines[k].key;
      var m :| 0 <= m < |items| && items[m] == it;
      FormatLineIsLine(k + 1, lines[k]);
    }
    SplitJoinLines(numbered);
    if |numbered| > 0 {
      JoinLinesEndsWithLast(numbered);
    }
  }

  /** The report is empty exactly when there is nothing to buy. */
  lemma {:induction false} ReportEmptyIff(items: seq<Item>)
    ensures Report(items) == "" <==> items == []
  {
    if |items| > 0 {
      GroupCorrect(items);
      assert items[0] in items;
      assert items[0].key in LineKeys(Group(items));
      var numbered := Numbered(Group(items), 1);
      assert |numbered| > 0;
      assert |numbered[|numbered| - 1]| > 0;
      JoinLinesEndsWithLast(numbered);
    }
  }

  // --------------------------------------------------------- the cart join

  function Repeat(it: Item, n: nat): (r: seq<Item>)
    ensures |r| == n && forall k :: 0 <= k < n ==> r[k] == it
    decreases n
  {
    if n == 0 then [] else [it] + Repeat(it, n - 1)
  }

  /** `RecipeIngredient.objects.filter(recipe__in_shopping_cart__user=user)`:
      every RecipeIngredient row once per matching cart row, read through its
      ingredient's name and unit. */
  function CartItems(rows: seq<RecipeIngredient>, catalog: map<nat, Ingredient>,
                     cart: seq<Membership>, user: nat): seq<Item>
    decreases |rows|
  {
    if |rows| == 0 then []
    else
      var r := rows[0];
      var rest := CartItems(rows[1..], catalog, cart, user);
      if r.ingredient in catalog then
        Repeat(Item(Key(catalog[r.ingredient].name, catalog[r.ingredient].unit), r.amount),
               multiset(cart)[Membership(user, r.recipe)]) + rest
      else rest
  }

  /** The recipes in the user's cart. */
  function CartRecipes(cart: seq<Membership>, user: nat): set<nat> {
    set m | m in cart && m.user == user :: m.recipe
  }

  /** The rows of the given recipes, each once. */
  function SelectedItems(rows: seq<RecipeIngredient>, catalog: map<nat, Ingredient>, recipes: set<nat>): seq<Item>
    decreases |rows|
  {
    if |rows| == 0 then []
    else
      var r := rows[0];
      var rest := SelectedItems(rows[1..], catalog, recipes);
      if r.ingredient in catalog && r.recipe in recipes then
        [Item(Key(catalog[r.ingredient].name, catalog[r.ingredient].unit), r.amount)] + rest
      else rest
  }

  /** With each (user, recipe) pair in the cart at most once, the join reads
      every row of every carted recipe exactly once. */
  lemma {:induction false} CartJoinIsSelection(rows: seq<RecipeIngredient>, catalog: map<nat, Ingredient>,
                                               cart: seq<Membership>, user: nat)
    requires NoDuplicates(cart)
    ensures CartItems(rows, catalog, cart, user) == SelectedItems(rows, catalog, CartRecipes(cart, user))
    decreases |rows|
  {
    if |rows| > 0 {
      var r := rows[0];
      CartJoinIsSelection(rows[1..], catalog, cart, user);
      NoDuplicatesCount(cart, Membership(user, r.recipe));
      if r.recipe in CartRecipes(cart, user) {
        var m :| m in cart && m.user == user && m.recipe == r.recipe;
        assert m == Membership(user, r.recipe);
      }
    }
  }

  /** The join's total for key `k`, read off the rows: every catalogued row
      with that name and unit contributes its amount once per cart row of
      (user, its recipe). */
  function JoinTotal(rows: seq<RecipeIngredient>, catalog: map<nat, Ingredient>,
                     cart: seq<Membership>, user: nat, k: Key): nat
    decreases |rows|
  {
    if |rows| == 0 then 0
    else
      var r := rows[0];
      (if r.ingredient in catalog && Key(catalog[r.ingredient].name, catalog[r.ingredient].unit) == k
       then r.amount * multiset(cart)[Membership(user, r.recipe)] else 0)
      + JoinTotal(rows[1..], catalog, cart, user, k)
  }

  lemma {:induction false} TotalRepeat(it: Item, n: nat, rest: seq<Item>, k: Key)
    ensures Total(Repeat(it, n) + rest, k) == (if it.key == k then it.amount * n else 0) + Total(rest, k)
    decreases n
  {
    if n > 0 {
      TotalRepeat(it, n - 1, rest, k);
      var s := Repeat(it, n) + rest;
      assert s == [it] + (Repeat(it, n - 1) + rest);
      assert s[1..] == Repeat(it, n - 1) + rest;
      MultiplySucc(it.amount, n - 1);
    } else {
      assert Repeat(it, n) + rest == rest;
    }
  }

  lemma MultiplySucc(a: nat, m: nat)
    ensures a * (m + 1) == a * m + a
  {
  }

  /** The join multiplies: a key's summed amount over the joined rows is the
      sum of each matching row's amount times the number of cart rows of
      (user, its recipe), whatever the cart holds. */
  lemma {:induction false} CartItemsTotal(rows: seq<RecipeIngredient>, catalog: map<nat, Ingredient>,
                                          cart: seq<Membership>, user: nat, k: Key)
    ensures Total(CartItems(rows, catalog, cart, user), k) == JoinTotal(rows, catalog, cart, user, k)
    decreases |rows|
  {
    if |rows| > 0 {
      var r := rows[0];
      CartItemsTotal(rows[1..], catalog, cart, user, k);
      if r.ingredient in catalog {
        TotalRepeat(Item(Key(catalog[r.ingredient].name, catalog[r.ingredient].unit), r.amount),
                    multiset(cart)[Membership(user, r.recipe)], CartItems(rows[1..], catalog, cart, user), k);
      }
    }
  }

  /** One more cart row for `m` adds the rows of `m`'s recipe once more. */
  lemma {:induction false} JoinTotalAppend(rows: seq<RecipeIngredient>, catalog: map<nat, Ingredient>,
                                           cart: seq<Membership>, m: Membership, k: Key)
    ensures JoinTotal(rows, catalog, cart + [m], m.user, k)
         == JoinTotal(rows, catalog, cart, m.user, k) + SelectionTotal(rows, catalog, {m.recipe}, k)
    decreases |rows|
  {
    if |rows| > 0 {
      var r := rows[0];
      JoinTotalAppend(rows[1..], catalog, cart, m, k);
      var p := Membership(m.user, r.recipe);
      assert multiset(cart + [m]) == multiset(cart) + multiset{m};
      var c := multiset(cart)[p];
      if r.recipe == m.recipe {
        assert multiset(cart + [m])[p] == c + 1;
        MultiplySucc(r.amount, c);
      } else {
        assert multiset(cart + [m])[p] == c;
      }
    }
  }

  /** The join counts the cart's rows, not its recipes: with the user's pairs
      unique the totals are those of the carted recipes' rows, and a pair
      stored a second time adds its recipe's amounts again -- the totals are
      right only because the cart validator keeps pairs unique. */
  lemma DuplicateCartRowDoubles(rows: seq<RecipeIngredient>, catalog: map<nat, Ingredient>,
                                cart: seq<Membership>, m: Membership, k: Key)
    requires NoDuplicates(cart) && m in cart
    ensures Total(CartItems(rows, catalog, cart, m.user), k)
         == SelectionTotal(rows, catalog, CartRecipes(cart, m.user), k)
    ensures Total(CartItems(rows, catalog, cart + [m], m.user), k)
         == SelectionTotal(rows, catalog, CartRecipes(cart, m.user), k) + SelectionTotal(rows, catalog, {m.recipe}, k)
  {
    CartJoinIsSelection(rows, catalog, cart, m.user);
    SelectedItemsTotal(rows, catalog, CartRecipes(cart, m.user), k);
    CartItemsTotal(rows, catalog, cart, m.user, k);
    CartItemsTotal(rows, catalog, cart + [m], m.user, k);
    JoinTotalAppend(rows, catalog, cart, m, k);
  }

  /** Every selected item is read from a row of a selected recipe whose
      ingredient is in the catalog, with that ingredient's name and unit and
      that row's amount. */
  lemma {:induction false} SelectedItemsFromRows(rows: seq<RecipeIngredient>, catalog: map<nat, Ingredient>,
                                                 recipes: set<nat>, k: nat)
    requires k < |SelectedItems(rows, catalog, recipes)|
    ensures exists j :: 0 <= j < |rows| && rows[j].recipe in recipes && rows[j].ingredient in catalog &&
              SelectedItems(rows, catalog, recipes)[k] ==
                Item(Key(catalog[rows[j].ingredient].name, catalog[rows[j].ingredient].unit), rows[j].amount)
    decreases |rows|
  {
    var r := rows[0];
    var items := SelectedItems(rows, catalog, recipes);
    var rest := SelectedItems(rows[1..], catalog, recipes);
    if r.ingredient in catalog && r.recipe in recipes && k == 0 {
      assert items[0] == Item(Key(catalog[rows[0].ingredient].name, catalog[rows[0].ingredient].unit), rows[0].amount);
    } else {
      var k' := if r.ingredient in catalog && r.recipe in recipes then k - 1 else k;
      assert items[k] == rest[k'];
      SelectedItemsFromRows(rows[1..], catalog, recipes, k');
      var j :| 0 <= j < |rows[1..]| && rows[1..][j].recipe in recipes && rows[1..][j].ingredient in catalog &&
                rest[k'] == Item(Key(catalog[rows[1..][j].ingredient].name, catalog[rows[1..][j].ingredient].unit),
                                 rows[1..][j].amount);
      assert rows[1..][j] == rows[j + 1];
    }
  }

  /** The total of a key over the selection: the sum of the amounts of the
      selected recipes' rows whose ingredient has that name and unit. */
  function SelectionTotal(rows: seq<RecipeIngredient>, catalog: map<nat, Ingredient>, recipes: set<nat>, k: Key): nat
    decreases |rows|
  {
    if |rows| == 0 then 0
    else
      var r := rows[0];
      (if r.recipe in recipes && r.ingredient in catalog &&
          Key(catalog[r.ingredient].name, catalog[r.ingredient].unit) == k then r.amount else 0)
      + SelectionTotal(rows[1..], catalog, recipes, k)
  }

  lemma {:induction false} SelectedItemsTotal(rows: seq<RecipeIngredient>, catalog: map<nat, Ingredient>,
                                              recipes: set<nat>, k: Key)
    ensures Total(SelectedItems(rows, catalog, recipes), k) == SelectionTotal(rows, catalog, recipes, k)
    decreases |rows|
  {
    if |rows| > 0 {
      SelectedItemsTotal(rows[1..], catalog, recipes, k);
      var r := rows[0];
      if r.ingredient in catalog && r.recipe in recipes {
        var s := SelectedItems(rows, catalog, recipes);
        assert s[1..] == SelectedItems(rows[1..], catalog, recipes);
      }
    }
  }

  /** `download_shopping_cart`: the plain-text list for `user`. */
  function DownloadShoppingCart(rows: seq<RecipeIngredient>, catalog: map<nat, Ingredient>,
                                cart: seq<Membership>, user: nat): string
  {
    Report(CartItems(rows, catalog, cart, user))
  }

  /** The grouped lines of the user's list, for a store whose invariants
      hold: there are none iff none of the user's carted recipes has an
      ingredient row; otherwise there is one per (name, unit) among the rows
      of carted recipes, and no other, each with the sum of their amounts, in
      strictly ascending name order. */
  lemma ShoppingCartLines(rows: seq<RecipeIngredient>, catalog: map<nat, Ingredient>,
                          cart: seq<Membership>, user: nat)
    requires NoDuplicates(cart)
    requires IngredientsValid(catalog)
    ensures var recipes := CartRecipes(cart, user);
            var lines := Group(SelectedItems(rows, catalog, recipes));
      && Group(CartItems(rows, catalog, cart, user)) == lines
      && (lines == [] <==> forall k :: 0 <= k < |rows| ==> rows[k].recipe !in recipes || rows[k].ingredient !in catalog)
      && (forall i :: 0 <= i < |lines| ==> lines[i].total == SelectionTotal(rows, catalog, recipes, lines[i].key))
      && (forall i, j :: 0 <= i < j < |lines| ==> Less(lines[i].key.name, lines[j].key.name))
      && (forall k :: 0 <= k < |rows| && rows[k].recipe in recipes && rows[k].ingredient in catalog ==>
            exists i :: 0 <= i < |lines| &&
              lines[i].key == Key(catalog[rows[k].ingredient].name, catalog[rows[k].ingredient].unit))
      && (forall i :: 0 <= i < |lines| ==> KeyOfSelectedRow(rows, catalog, recipes, lines[i].key))
  {
    var recipes := CartRecipes(cart, user);
    var items := SelectedItems(rows, catalog, recipes);
    CartJoinIsSelection(rows, catalog, cart, user);
    SelectedItemsEmptyIff(rows, catalog, recipes);
    assert NamesDetermineUnits(items) by {
      forall i, j | 0 <= i < |items| && 0 <= j < |items| && items[i].key.name == items[j].key.name
        ensures items[i].key.unit == items[j].key.unit
      {
        SelectedItemsFromRows(rows, catalog, recipes, i);
        SelectedItemsFromRows(rows, catalog, recipes, j);
      }
    }
    ShoppingListLines(items);
    var lines := Group(items);
    GroupCorrect(items);
    if |items| > 0 {
      assert items[0] in items;
      assert items[0].key in LineKeys(lines);
    }
    forall i | 0 <= i < |lines| ensures lines[i].total == SelectionTotal(rows, catalog, recipes, lines[i].key) {
      SelectedItemsTotal(rows, catalog, recipes, lines[i].key);
    }
    forall k | 0 <= k < |rows| && rows[k].recipe in recipes && rows[k].ingredient in catalog
      ensures exists i :: 0 <= i < |lines| &&
                lines[i].key == Key(catalog[rows[k].ingredient].name, catalog[rows[k].ingredient].unit)
    {
      var key := Key(catalog[rows[k].ingredient].name, catalog[rows[k].ingredient].unit);
      SelectedItemsContains(rows, catalog, recipes, k);
      assert key in ItemKeys(items);
    }
    GroupedLinesFromRows(rows, catalog, recipes);
  }

  /** The downloaded list, for a store whose invariants hold and whose names
      and units hold no newline: it is empty iff none of the user's carted
      recipes has an ingredient row, and it splits back into exactly the
      numbered lines `ShoppingCartLines` describes. */
  lemma DownloadShoppingCartSpec(rows: seq<RecipeIngredient>, catalog: map<nat, Ingredient>,
                                 cart: seq<Membership>, user: nat)
    requires NoDuplicates(cart)
    requires IngredientsValid(catalog)
    requires forall id :: id in catalog ==> NoNewline(catalog[id].name) && NoNewline(catalog[id].unit)
    ensures var text := DownloadShoppingCart(rows, catalog, cart, user);
            var recipes := CartRecipes(cart, user);
            var lines := Group(SelectedItems(rows, catalog, recipes));
      && (text == "" <==> forall k :: 0 <= k < |rows| ==> rows[k].recipe !in recipes || rows[k].ingredient !in catalog)
      && SplitLines(text) == Numbered(lines, 1)
  {
    var recipes := CartRecipes(cart, user);
    var items := SelectedItems(rows, catalog, recipes);
    CartJoinIsSelection(rows, catalog, cart, user);
    forall i | 0 <= i < |items| ensures NoNewline(items[i].key.name) && NoNewline(items[i].key.unit) {
      SelectedItemsFromRows(rows, catalog, recipes, i);
    }
    ReportLayout(items);
    ReportEmptyIff(items);
    SelectedItemsEmptyIff(rows, catalog, recipes);
  }

  /** `key` is the name and unit of some row of a selected recipe. */
  predicate KeyOfSelectedRow(rows: seq<RecipeIngredient>, catalog: map<nat, Ingredient>, recipes: set<nat>, key: Key) {
    exists k :: 0 <= k < |rows| && rows[k].recipe in recipes && rows[k].ingredient in catalog &&
      key == Key(catalog[rows[k].ingredient].name, catalog[rows[k].ingredient].unit)
  }

  /** Every grouped line's key is the name and unit of a selected row. */
  lemma GroupedLinesFromRows(rows: seq<RecipeIngredient>, catalog: map<nat, Ingredient>, recipes: set<nat>)
    ensures var lines := Group(SelectedItems(rows, catalog, recipes));
      forall i :: 0 <= i < |lines| ==> KeyOfSelectedRow(rows, catalog, recipes, lines[i].key)
  {
    var items := SelectedItems(rows, catalog, recipes);
    var lines := Group(items);
    GroupCorrect(items);
    forall i | 0 <= i < |lines| ensures KeyOfSelectedRow(rows, catalog, recipes, lines[i].key) {
      assert lines[i] in lines;
      assert lines[i].key in ItemKeys(items);
      var a :| a in items && a.key == lines[i].key;
      var ia :| 0 <= ia < |items| && items[ia] == a;
      SelectedItemsFromRows(rows, catalog, recipes, ia);
    }
  }

  lemma {:induction false} SelectedItemsContains(rows: seq<RecipeIngredient>, catalog: map<nat, Ingredient>,
                                                 recipes: set<nat>, k: nat)
    requires k < |rows| && rows[k].recipe in recipes && rows[k].ingredient in catalog
    ensures Item(Key(catalog[rows[k].ingredient].name, catalog[rows[k].ingredient].unit), rows[k].amount)
              in SelectedItems(rows, catalog, recipes)
    decreases |rows|
  {
    if k > 0 {
      SelectedItemsContains(rows[1..], catalog, recipes, k - 1);
    }
  }

  lemma {:induction false} SelectedItemsEmptyIff(rows: seq<RecipeIngredient>, catalog: map<nat, Ingredient>, recipes: set<nat>)
    ensures SelectedItems(rows, catalog, recipes) == [] <==>
              forall k :: 0 <= k < |rows| ==> rows[k].recipe !in recipes || rows[k].ingredient !in catalog
    decreases |rows|
  {
    if |rows| > 0 {
      SelectedItemsEmptyIff(rows[1..], catalog, recipes);
      assert forall k :: 1 <= k < |rows| ==> rows[k] == rows[1..][k - 1];
    }
  }
}
