/** `getCategoriesAndProducts`: the joined category/product rows, ordered by category
    id and product name, folded into a list of categories, each with a sub-menu of
    products. */
module Catalog {
  import opened Records

  /** Some category in `cats` has this caption (`Article::equals` is assumed to compare captions only). */
  predicate HasCaption(cats: seq<Category>, caption: string)
  {
    exists k :: 0 <= k < |cats| && cats[k].caption == caption
  }

  /** One turn of the loop: append the row's category when its caption is not yet listed,
      then append the row's product to the LAST category of the list. */
  function AddRow(cats: seq<Category>, row: CatalogRow): (r: seq<Category>)
    ensures |r| > 0
  {
    var listed := if HasCaption(cats, row.catName) then cats
                  else cats + [Category(row.catName, row.catIcon, [])];
    var last := |listed| - 1;
    listed[last := listed[last].(subMenu := listed[last].subMenu + [row.product])]
  }

  /** The effect of one `AddRow`, spelled out. */
  lemma AddRowShape(cats: seq<Category>, row: CatalogRow)
    ensures var r := AddRow(cats, row);
      if HasCaption(cats, row.catName)
      then cats != [] && r == cats[..|cats| - 1] + [cats[|cats| - 1].(subMenu := cats[|cats| - 1].subMenu + [row.product])]
      else r == cats + [Category(row.catName, row.catIcon, [row.product])]
  {
    if HasCaption(cats, row.catName) {
      var last := |cats| - 1;
      assert cats[last := cats[last].(subMenu := cats[last].subMenu + [row.product])]
          == cats[..last] + [cats[last].(subMenu := cats[last].subMenu + [row.product])];
    } else {
      var listed := cats + [Category(row.catName, row.catIcon, [])];
      assert [] + [row.product] == [row.product];
      assert listed[|cats| := Category(row.catName, row.catIcon, [row.product])]
          == cats + [Category(row.catName, row.catIcon, [row.product])];
    }
  }

  /** The list the loop has built after consuming `rows`. */
  function CatalogOf(rows: seq<CatalogRow>): (cats: seq<Category>)
  {
    if rows == [] then [] else AddRow(CatalogOf(rows[..|rows| - 1]), rows[|rows| - 1])
  }

  /** `lstArticles.indexOf(category)`: the first position whose caption matches, or -1. */
  method IndexOfCaption(cats: seq<Category>, caption: string) returns (index: int)
    ensures -1 <= index < |cats|
    ensures index == -1 <==> !HasCaption(cats, caption)
    ensures index >= 0 ==> cats[index].caption == caption
                           && forall k :: 0 <= k < index ==> cats[k].caption != caption
  {
    var i := 0;
    while i < |cats|
      invariant 0 <= i <= |cats|
      invariant forall k :: 0 <= k < i ==> cats[k].caption != caption
    {
      if cats[i].caption == caption {
        return i;
      }
      i := i + 1;
    }
    return -1;
  }

  /** The `while (rs.next())` loop of `getCategoriesAndProducts` over the rows the query returns. */
  method GetCategoriesAndProducts(rows: seq<CatalogRow>) returns (articles: seq<Category>)
    ensures articles == CatalogOf(rows)
  {
    articles := [];
    for i := 0 to |rows|
      invariant articles == CatalogOf(rows[..i])
    {
      assert rows[..i + 1][..i] == rows[..i];
      var row := rows[i];
      var index := IndexOfCaption(articles, row.catName);
      if index == -1 {
        articles := articles + [Category(row.catName, row.catIcon, [])];
      }
      var last := |articles| - 1;
      articles := articles[last := articles[last].(subMenu := articles[last].subMenu + [row.product])];
    }
    assert rows[..|rows|] == rows;
  }

  // ---------------------------------------------------------------------------
  // What the fold promises about the categories

  function Names(rows: seq<CatalogRow>): (names: seq<string>)
    ensures |names| == |rows|
  {
    if rows == [] then [] else Names(rows[..|rows| - 1]) + [rows[|rows| - 1].catName]
  }

  /** The position of the first occurrence of `x` in `s`; `|s|` when there is none. */
  function FirstIndex(s: seq<string>, x: string): (i: nat)
    ensures i <= |s|
    ensures i < |s| <==> x in s
    ensures i < |s| ==> s[i] == x
  {
    if s == [] then 0 else if s[0] == x then 0 else 1 + FirstIndex(s[1..], x)
  }

  lemma {:induction false} FirstIndexAppend(s: seq<string>, y: string, x: string)
    ensures FirstIndex(s + [y], x) == if x in s then FirstIndex(s, x) else if x == y then |s| else |s| + 1
  {
    if s != [] {
      FirstIndexAppend(s[1..], y, x);
      assert (s + [y])[1..] == s[1..] + [y];
    }
  }

  lemma NamesAppend(rows: seq<CatalogRow>, r: CatalogRow)
    ensures Names(rows + [r]) == Names(rows) + [r.catName]
  {
    assert (rows + [r])[..|rows|] == rows;
  }

  lemma NamesAt(rows: seq<CatalogRow>, i: int)
    requires 0 <= i < |rows|
    ensures Names(rows)[i] == rows[i].catName
  {
    if i < |rows| - 1 {
      NamesAt(rows[..|rows| - 1], i);
    }
  }

  /** What one `AddRow` does to the list: the entries already there keep their caption and
      icon, and an entry with the row's name and icon is added exactly when the name was
      not yet listed. */
  lemma AddRowHeads(cats: seq<Category>, row: CatalogRow)
    ensures var r := AddRow(cats, row);
      && |r| == (if HasCaption(cats, row.catName) then |cats| else |cats| + 1)
      && (forall k :: 0 <= k < |cats| ==> r[k].caption == cats[k].caption && r[k].icon == cats[k].icon)
      && (!HasCaption(cats, row.catName) ==> r[|cats|].caption == row.catName && r[|cats|].icon == row.catIcon)
  {
  }

  /** The captions of the result are pairwise distinct, and they are exactly the category
      names that occur in the rows. */
  lemma {:induction false} CatalogCaptions(rows: seq<CatalogRow>)
    ensures var cats := CatalogOf(rows);
      && (forall i, j :: 0 <= i < j < |cats| ==> cats[i].caption != cats[j].caption)
      && (forall name :: HasCaption(cats, name) <==> name in Names(rows))
  {
    if rows != [] {
      var n := |rows|;
      var prefix := rows[..n - 1];
      var row := rows[n - 1];
      assert prefix + [row] == rows;
      CatalogCaptions(prefix);
      NamesAppend(prefix, row);
      var before := CatalogOf(prefix);
      assert forall i, j :: 0 <= i < j < |CatalogOf(prefix)| ==> CatalogOf(prefix)[i].caption != CatalogOf(prefix)[j].caption;
      assert forall i, j :: 0 <= i < j < |before| ==> before[i].caption != before[j].caption;
      CaptionsStep(before, row);
    }
  }

  /** One `AddRow` keeps the captions distinct and adds exactly the row's name to them. */
  lemma CaptionsStep(before: seq<Category>, row: CatalogRow)
    requires forall i, j :: 0 <= i < j < |before| ==> before[i].caption != before[j].caption
    ensures var cats := AddRow(before, row);
      && (forall i, j :: 0 <= i < j < |cats| ==> cats[i].caption != cats[j].caption)
      && (forall name :: HasCaption(cats, name) <==> HasCaption(before, name) || name == row.catName)
  {
    var cats := AddRow(before, row);
    AddRowHeads(before, row);
    forall name
      ensures HasCaption(cats, name) <==> HasCaption(before, name) || name == row.catName
    {
      if HasCaption(cats, name) {
        var k :| 0 <= k < |cats| && cats[k].caption == name;
        if k < |before| {
          assert before[k].caption == name;
        }
      }
      if HasCaption(before, name) {
        var k :| 0 <= k < |before| && before[k].caption == name;
        assert cats[k].caption == name;
      }
      if name == row.catName && !HasCaption(before, name) {
        assert cats[|before|].caption == name;
      }
    }
  }

  /** The categories come in the order their names first appear in the rows. */
  lemma {:induction false} CatalogOrder(rows: seq<CatalogRow>)
    ensures var cats, names := CatalogOf(rows), Names(rows);
      forall i, j :: 0 <= i < j < |cats| ==> FirstIndex(names, cats[i].caption) < FirstIndex(names, cats[j].caption)
  {
    if rows != [] {
      var n := |rows|;
      var prefix := rows[..n - 1];
      var row := rows[n - 1];
      assert prefix + [row] == rows;
      CatalogOrder(prefix);
      CatalogCaptions(prefix);
      NamesAppend(prefix, row);
      var before := CatalogOf(prefix);
      var cats := CatalogOf(rows);
      var names := Names(rows);
      AddRowHeads(before, row);
      forall i | 0 <= i < |before|
        ensures FirstIndex(names, cats[i].caption) == FirstIndex(Names(prefix), before[i].caption) < n - 1
      {
        assert HasCaption(before, before[i].caption);
        FirstIndexAppend(Names(prefix), row.catName, before[i].caption);
      }
      if !HasCaption(before, row.catName) {
        FirstIndexAppend(Names(prefix), row.catName, row.catName);
      }
    }
  }

  /** Each category keeps the icon of the first row that named it. */
  lemma {:induction false} CatalogIcons(rows: seq<CatalogRow>)
    ensures var cats, names := CatalogOf(rows), Names(rows);
      forall i :: 0 <= i < |cats| ==> FirstIndex(names, cats[i].caption) < |rows|
                                      && rows[FirstIndex(names, cats[i].caption)].catIcon == cats[i].icon
  {
    if rows != [] {
      var n := |rows|;
      var prefix := rows[..n - 1];
      var row := rows[n - 1];
      assert prefix + [row] == rows;
      CatalogIcons(prefix);
      CatalogCaptions(prefix);
      NamesAppend(prefix, row);
      var before := CatalogOf(prefix);
      var cats := CatalogOf(rows);
      var names := Names(rows);
      AddRowHeads(before, row);
      forall i | 0 <= i < |cats|
        ensures FirstIndex(names, cats[i].caption) < |rows|
        ensures rows[FirstIndex(names, cats[i].caption)].catIcon == cats[i].icon
      {
        if i < |before| {
          assert HasCaption(before, before[i].caption);
          FirstIndexAppend(Names(prefix), row.catName, before[i].caption);
          assert rows[FirstIndex(names, cats[i].caption)] == prefix[FirstIndex(Names(prefix), before[i].caption)];
        } else {
          FirstIndexAppend(Names(prefix), row.catName, row.catName);
        }
      }
    }
  }

  // ---------------------------------------------------------------------------
  // What the fold promises about the products

  /** All products of all categories, category by category. */
  function Flatten(cats: seq<Category>): (products: seq<Product>)
  {
    if cats == [] then [] else Flatten(cats[..|cats| - 1]) + cats[|cats| - 1].subMenu
  }

  function RowProducts(rows: seq<CatalogRow>): (products: seq<Product>)
  {
    if rows == [] then [] else RowProducts(rows[..|rows| - 1]) + [rows[|rows| - 1].product]
  }

  lemma FlattenAppend(cats: seq<Category>, c: Category)
    ensures Flatten(cats + [c]) == Flatten(cats) + c.subMenu
  {
    assert (cats + [c])[..|cats|] == cats;
  }

  /** Appending a product to the last category appends it to the flattened list. */
  lemma FlattenGrowLast(cats: seq<Category>, p: Product)
    requires cats != []
    ensures var last := |cats| - 1;
      Flatten(cats[last := cats[last].(subMenu := cats[last].subMenu + [p])]) == Flatten(cats) + [p]
  {
    var last := |cats| - 1;
    var grown := cats[last := cats[last].(subMenu := cats[last].subMenu + [p])];
    assert cats == cats[..last] + [cats[last]];
    assert grown == cats[..last] + [grown[last]];
    FlattenAppend(cats[..last], cats[last]);
    FlattenAppend(cats[..last], grown[last]);
  }

  /** One turn of the loop adds exactly the row's product at the end of the flattened list. */
  lemma FlattenAddRow(cats: seq<Category>, row: CatalogRow)
    ensures Flatten(AddRow(cats, row)) == Flatten(cats) + [row.product]
  {
    if HasCaption(cats, row.catName) {
      FlattenGrowLast(cats, row.product);
    } else {
      var listed := cats + [Category(row.catName, row.catIcon, [])];
      FlattenAppend(cats, Category(row.catName, row.catIcon, []));
      assert Flatten(cats) + [] == Flatten(cats);
      FlattenGrowLast(listed, row.product);
    }
  }

  /** Every row contributes exactly one product, and the products keep row order: read
      category by category, the sub-menus are the rows' products. */
  lemma {:induction false} CatalogProducts(rows: seq<CatalogRow>)
    ensures Flatten(CatalogOf(rows)) == RowProducts(rows)
    ensures |Flatten(CatalogOf(rows))| == |rows|
  {
    if rows != [] {
      var prefix := rows[..|rows| - 1];
      CatalogProducts(prefix);
      FlattenAddRow(CatalogOf(prefix), rows[|rows| - 1]);
    }
  }

  /** Where category `i` of `cats` begins among the rows named by `names`: the first row
      carrying its caption, or the end of the rows for the position past the last category. */
  function Start(names: seq<string>, cats: seq<Category>, i: int): (s: nat)
    requires 0 <= i <= |cats|
    ensures s <= |names|
  {
    if i < |cats| then FirstIndex(names, cats[i].caption) else |names|
  }

  /** One more row lists its name at the end, first seen at that row, when the name is new. */
  lemma CatalogStep(prefix: seq<CatalogRow>, row: CatalogRow)
    ensures var before, cats := CatalogOf(prefix), CatalogOf(prefix + [row]);
      && cats == AddRow(before, row)
      && |cats| == (if HasCaption(before, row.catName) then |before| else |before| + 1)
      && (!HasCaption(before, row.catName) ==> Start(Names(prefix + [row]), cats, |before|) == |prefix|)
  {
    var rows := prefix + [row];
    assert rows[..|prefix|] == prefix;
    var before, cats := CatalogOf(prefix), CatalogOf(rows);
    NamesAppend(prefix, row);
    AddRowHeads(before, row);
    if !HasCaption(before, row.catName) {
      CatalogCaptions(prefix);
      FirstIndexAppend(Names(prefix), row.catName, row.catName);
    }
  }

  /** One more row leaves a category already listed in place, with the same first row. */
  lemma StartKept(prefix: seq<CatalogRow>, row: CatalogRow, i: int)
    requires 0 <= i < |CatalogOf(prefix)|
    ensures i < |CatalogOf(prefix + [row])|
    ensures CatalogOf(prefix + [row])[i].caption == CatalogOf(prefix)[i].caption
    ensures Start(Names(prefix + [row]), CatalogOf(prefix + [row]), i)
            == Start(Names(prefix), CatalogOf(prefix), i) < |prefix|
  {
    var rows := prefix + [row];
    assert rows[..|prefix|] == prefix;
    var before := CatalogOf(prefix);
    NamesAppend(prefix, row);
    AddRowHeads(before, row);
    CatalogCaptions(prefix);
    assert HasCaption(before, before[i].caption);
    FirstIndexAppend(Names(prefix), row.catName, before[i].caption);
  }

  /** The products of the rows from `s` up to `t` grow by one when `t` does. */
  lemma RowProductsGrow(rows: seq<CatalogRow>, s: int, t: int)
    requires 0 <= s < t <= |rows|
    ensures RowProducts(rows[s..t]) == RowProducts(rows[s..t - 1]) + [rows[t - 1].product]
  {
    assert rows[s..t][..t - 1 - s] == rows[s..t - 1];
  }

  /** Category `i` holds the products of the rows from its start up to the next one. */
  predicate SubMenuFrom(rows: seq<CatalogRow>, i: int)
    requires 0 <= i < |CatalogOf(rows)|
  {
    var cats, names := CatalogOf(rows), Names(rows);
    && Start(names, cats, i) <= Start(names, cats, i + 1)
    && cats[i].subMenu == RowProducts(rows[Start(names, cats, i)..Start(names, cats, i + 1)])
  }

  /** How the products are split between the categories: category `i` holds the products of
      the rows from the first row naming it up to the first row naming the next category (or
      the end), whatever those rows name. So a product lands under the category listed last
      at its row, not necessarily under the one it names. */
  lemma CatalogSubMenus(rows: seq<CatalogRow>)
    ensures var cats, names := CatalogOf(rows), Names(rows);
      forall i :: 0 <= i < |cats| ==>
        && Start(names, cats, i) <= Start(names, cats, i + 1)
        && cats[i].subMenu == RowProducts(rows[Start(names, cats, i)..Start(names, cats, i + 1)])
  {
    SubMenusFrom(rows);
    var cats, names := CatalogOf(rows), Names(rows);
    forall i | 0 <= i < |cats|
      ensures Start(names, cats, i) <= Start(names, cats, i + 1)
      ensures cats[i].subMenu == RowProducts(rows[Start(names, cats, i)..Start(names, cats, i + 1)])
    {
      assert SubMenuFrom(rows, i);
    }
  }

  lemma {:induction false} SubMenusFrom(rows: seq<CatalogRow>)
    ensures forall i :: 0 <= i < |CatalogOf(rows)| ==> SubMenuFrom(rows, i)
  {
    if rows != [] {
      var n := |rows|;
      var prefix := rows[..n - 1];
      var row := rows[n - 1];
      assert prefix + [row] == rows;
      SubMenusFrom(prefix);
      var before := CatalogOf(prefix);
      CatalogStep(prefix, row);
      forall i | 0 <= i < |CatalogOf(rows)|
        ensures SubMenuFrom(rows, i)
      {
        if i < |before| - 1 {
          SubMenuKept(prefix, row, i);
        } else if i == |before| - 1 && HasCaption(before, row.catName) {
          SubMenuLastGrows(prefix, row);
        } else if i == |before| - 1 {
          SubMenuLastKept(prefix, row);
        } else {
          SubMenuNew(prefix, row);
        }
      }
    }
  }

  /** The entries of `AddRow` one by one: earlier entries are untouched, the last listed
      entry gets the product when the name is listed, and a new name gets an entry holding
      just the product. */
  lemma AddRowEntries(cats: seq<Category>, row: CatalogRow)
    ensures var r, last := AddRow(cats, row), |cats| - 1;
      && |r| == (if HasCaption(cats, row.catName) then |cats| else |cats| + 1)
      && (forall k :: 0 <= k < last ==> r[k] == cats[k])
      && (cats != [] ==> r[last] == if HasCaption(cats, row.catName)
                                   then cats[last].(subMenu := cats[last].subMenu + [row.product])
                                   else cats[last])
      && (!HasCaption(cats, row.catName) ==> r[|cats|] == Category(row.catName, row.catIcon, [row.product]))
  {
    assert [] + [row.product] == [row.product];
  }

  /** A category that is neither the last nor the new one keeps its products. */
  lemma SubMenuKept(prefix: seq<CatalogRow>, row: CatalogRow, i: int)
    requires 0 <= i && i + 1 < |CatalogOf(prefix)|
    requires SubMenuFrom(prefix, i)
    ensures i < |CatalogOf(prefix + [row])|
    ensures SubMenuFrom(prefix + [row], i)
  {
    var rows := prefix + [row];
    var before := CatalogOf(prefix);
    CatalogStep(prefix, row);
    StartKept(prefix, row, i);
    StartKept(prefix, row, i + 1);
    AddRowEntries(before, row);
    var s, t := Start(Names(prefix), before, i), Start(Names(prefix), before, i + 1);
    assert CatalogOf(rows)[i] == before[i];
    assert rows[s..t] == prefix[s..t];
  }

  /** The category listed last before the row gets the row's product when the row's name is
      already listed. */
  lemma SubMenuLastGrows(prefix: seq<CatalogRow>, row: CatalogRow)
    requires CatalogOf(prefix) != []
    requires HasCaption(CatalogOf(prefix), row.catName)
    requires SubMenuFrom(prefix, |CatalogOf(prefix)| - 1)
    ensures |CatalogOf(prefix)| - 1 < |CatalogOf(prefix + [row])|
    ensures SubMenuFrom(prefix + [row], |CatalogOf(prefix)| - 1)
  {
    var rows := prefix + [row];
    var n := |rows|;
    var before := CatalogOf(prefix);
    var i := |before| - 1;
    CatalogStep(prefix, row);
    StartKept(prefix, row, i);
    AddRowEntries(before, row);
    var s := Start(Names(prefix), before, i);
    assert Start(Names(rows), CatalogOf(rows), i + 1) == n;
    assert rows[s..n - 1] == prefix[s..n - 1];
    RowProductsGrow(rows, s, n);
  }

  /** The category listed last before the row keeps its products when the row's name is new. */
  lemma SubMenuLastKept(prefix: seq<CatalogRow>, row: CatalogRow)
    requires CatalogOf(prefix) != []
    requires !HasCaption(CatalogOf(prefix), row.catName)
    requires SubMenuFrom(prefix, |CatalogOf(prefix)| - 1)
    ensures |CatalogOf(prefix)| - 1 < |CatalogOf(prefix + [row])|
    ensures SubMenuFrom(prefix + [row], |CatalogOf(prefix)| - 1)
  {
    var rows := prefix + [row];
    var n := |rows|;
    var before := CatalogOf(prefix);
    var i := |before| - 1;
    CatalogStep(prefix, row);
    StartKept(prefix, row, i);
    AddRowEntries(before, row);
    var s := Start(Names(prefix), before, i);
    assert Start(Names(rows), CatalogOf(rows), i + 1) == n - 1;
    assert rows[s..n - 1] == prefix[s..n - 1];
  }

  /** A category the row adds holds just the row's product. */
  lemma SubMenuNew(prefix: seq<CatalogRow>, row: CatalogRow)
    requires !HasCaption(CatalogOf(prefix), row.catName)
    ensures |CatalogOf(prefix)| < |CatalogOf(prefix + [row])|
    ensures SubMenuFrom(prefix + [row], |CatalogOf(prefix)|)
  {
    var rows := prefix + [row];
    CatalogStep(prefix, row);
    AddRowEntries(CatalogOf(prefix), row);
    assert rows[|prefix|..|rows|] == [row];
    assert RowProducts([row]) == [row.product];
  }

  /** The last row's product always ends the LAST category's sub-menu, whether or not
      that category carries the row's caption. */
  lemma LastProductGoesLast(rows: seq<CatalogRow>)
    requires rows != []
    ensures var cats := CatalogOf(rows);
      cats != [] && cats[|cats| - 1].subMenu != []
      && cats[|cats| - 1].subMenu[|cats[|cats| - 1].subMenu| - 1] == rows[|rows| - 1].product
  {
  }

  /** Two rows with different names list two categories, one product each. */
  lemma TwoNamesListed(iconA: Icon, iconB: Icon, p1: Product, p2: Product)
    ensures CatalogOf([CatalogRow("A", iconA, p1), CatalogRow("B", iconB, p2)])
            == [Category("A", iconA, [p1]), Category("B", iconB, [p2])]
  {
    var r1, r2 := CatalogRow("A", iconA, p1), CatalogRow("B", iconB, p2);
    assert [r1, r2][..1] == [r1] && [r1][..0] == [];
    AddRowShape([], r1);
    assert CatalogOf([r1]) == AddRow(CatalogOf([]), r1);
    var c1 := CatalogOf([r1]);
    assert c1 == [Category("A", iconA, [p1])];
    assert !HasCaption(c1, "B");
    AddRowShape(c1, r2);
  }

  /** A name that comes back after another category is not re-listed, and its product is
      filed under the category listed last. */
  lemma ReturningNameFiledUnderLast(iconA: Icon, iconB: Icon, p1: Product, p2: Product, p3: Product)
    ensures CatalogOf([CatalogRow("A", iconA, p1), CatalogRow("B", iconB, p2), CatalogRow("A", iconA, p3)])
            == [Category("A", iconA, [p1]), Category("B", iconB, [p2, p3])]
  {
    var r1, r2, r3 := CatalogRow("A", iconA, p1), CatalogRow("B", iconB, p2), CatalogRow("A", iconA, p3);
    var rows := [r1, r2, r3];
    assert rows[..2] == [r1, r2];
    TwoNamesListed(iconA, iconB, p1, p2);
    var c2 := CatalogOf([r1, r2]);
    assert c2[0].caption == "A";
    AddRowShape(c2, r3);
    assert c2[..1] == [Category("A", iconA, [p1])];
    assert [p2] + [p3] == [p2, p3];
  }

  // ---------------------------------------------------------------------------
  // Rows sorted by category

  /** Rows with the same category name are adjacent, as the ORDER BY on the category
      id gives when distinct categories have distinct names. */
  predicate Contiguous(rows: seq<CatalogRow>)
  {
    forall i, j, k :: 0 <= i < j < k < |rows| && rows[i].catName == rows[k].catName
      ==> rows[j].catName == rows[i].catName
  }

  /** The products of the rows that name `caption`, in row order. */
  function ProductsNamed(rows: seq<CatalogRow>, caption: string): (products: seq<Product>)
  {
    if rows == [] then []
    else ProductsNamed(rows[..|rows| - 1], caption)
         + (if rows[|rows| - 1].catName == caption then [rows[|rows| - 1].product] else [])
  }

  lemma {:induction false} ProductsNamedAbsent(rows: seq<CatalogRow>, caption: string)
    requires forall i :: 0 <= i < |rows| ==> rows[i].catName != caption
    ensures ProductsNamed(rows, caption) == []
  {
    if rows != [] {
      ProductsNamedAbsent(rows[..|rows| - 1], caption);
    }
  }

  /** On contiguous rows the last category listed carries the last row's name. */
  lemma {:induction false} LastCaptionIsLastName(rows: seq<CatalogRow>)
    requires rows != [] && Contiguous(rows)
    ensures var cats := CatalogOf(rows);
      cats != [] && cats[|cats| - 1].caption == rows[|rows| - 1].catName
  {
    var n := |rows|;
    var prefix := rows[..n - 1];
    var row := rows[n - 1];
    var cats := CatalogOf(prefix);
    if HasCaption(cats, row.catName) {
      assert prefix != [];
      CatalogCaptions(prefix);
      assert row.catName in Names(prefix);
      var i :| 0 <= i < |prefix| && Names(prefix)[i] == row.catName;
      NamesAt(prefix, i);
      assert rows[i].catName == rows[n - 1].catName;
      if i < n - 2 {
        assert rows[n - 2].catName == rows[i].catName;
      }
      assert Contiguous(prefix);
      LastCaptionIsLastName(prefix);
    }
  }

  /** When the rows come grouped by category, every category's sub-menu holds exactly the
      products of the rows that name it, in row order. */
  lemma {:induction false} ContiguousRowsFileProductsByName(rows: seq<CatalogRow>)
    requires Contiguous(rows)
    ensures var cats := CatalogOf(rows);
      forall i :: 0 <= i < |cats| ==> cats[i].subMenu == ProductsNamed(rows, cats[i].caption)
  {
    if rows != [] {
      var n := |rows|;
      var prefix := rows[..n - 1];
      var row := rows[n - 1];
      assert Contiguous(prefix);
      ContiguousRowsFileProductsByName(prefix);
      CatalogCaptions(prefix);
      CatalogCaptions(rows);
      var before := CatalogOf(prefix);
      var cats := CatalogOf(rows);
      if HasCaption(before, row.catName) {
        LastCaptionIsLastName(rows);
        LastCaptionIsLastName(prefix);
        forall i | 0 <= i < |cats|
          ensures cats[i].subMenu == ProductsNamed(rows, cats[i].caption)
        {
          if i < |cats| - 1 {
            assert cats[i] == before[i];
            assert cats[i].caption != cats[|cats| - 1].caption;
          }
        }
      } else {
        AddRowShape(before, row);
        assert cats == before + [Category(row.catName, row.catIcon, [row.product])];
        forall i | 0 <= i < |cats|
          ensures cats[i].subMenu == ProductsNamed(rows, cats[i].caption)
        {
          if i < |before| {
            assert cats[i] == before[i];
            assert HasCaption(before, before[i].caption);
          } else {
            forall k | 0 <= k < |prefix|
              ensures prefix[k].catName != row.catName
            {
              NamesAt(prefix, k);
            }
            ProductsNamedAbsent(prefix, row.catName);
          }
        }
      }
    }
  }
}
