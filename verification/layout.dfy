/** The sidebar of `DashboardLayout`: its navigation list and the rule
    that decides which entry is highlighted for the current pathname. */
module Layout {
  import opened Wrappers
  import opened JsText
  import opened Seqs

  datatype NavItem = NavItem(name: string, path: string)

  /** The sidebar entries, top to bottom. */
  const Navigation: seq<NavItem> := [
    NavItem("Dashboard", "/dashboard"),
    NavItem("New Order", "/orders/new"),
    NavItem("Orders", "/orders"),
    NavItem("Clients", "/clients"),
    NavItem("Services", "/services"),
    NavItem("Payments", "/payments"),
    NavItem("Inventory", "/inventory"),
    NavItem("Reports", "/reports")
  ]

  /** `isActive(path)`: an entry is highlighted when the pathname is its
      path or lies below it, except that the orders list is highlighted
      only on `/orders` itself, so that `/orders/new` and `/orders/7` do
      not light it up. */
  function IsActive(path: string, pathname: string): (r: bool)
    ensures path == "/orders" ==> (r <==> pathname == "/orders")
    ensures path != "/orders" ==> (r <==> pathname == path || StartsWith(pathname, path + "/"))
  {
    if path == "/orders" && StartsWith(pathname, "/orders") then pathname == "/orders"
    else pathname == path || StartsWith(pathname, path + "/")
  }

  /** An active entry's path is a prefix of the pathname. */
  lemma ActivePrefix(path: string, pathname: string)
    requires IsActive(path, pathname)
    ensures StartsWith(pathname, path)
  {
    if pathname != path {
      assert pathname[..|path|] == pathname[..|path| + 1][..|path|] == (path + "/")[..|path|] == path;
    }
  }

  /** The highlighted entry for a pathname, if any: the only entry that is
      active. */
  function ActiveEntry(pathname: string): (r: Option<nat>)
    ensures r.Some? ==> r.value < |Navigation| && IsActive(Navigation[r.value].path, pathname)
    ensures r.Some? ==> forall j :: 0 <= j < |Navigation| && j != r.value ==> !IsActive(Navigation[j].path, pathname)
    ensures r.None? <==> forall j :: 0 <= j < |Navigation| ==> !IsActive(Navigation[j].path, pathname)
  {
    var r := Find((item: NavItem) => IsActive(item.path, pathname), Navigation);
    if r.Some? then OthersInactive(r.value, pathname); r else r
  }

  lemma OthersInactive(i: nat, pathname: string)
    requires i < |Navigation| && IsActive(Navigation[i].path, pathname)
    ensures forall j :: 0 <= j < |Navigation| && j != i ==> !IsActive(Navigation[j].path, pathname)
  {
    forall j | 0 <= j < |Navigation| && j != i
      ensures !IsActive(Navigation[j].path, pathname)
    {
      OnlyOneActive(i, j, pathname);
    }
  }

  /** The second character of every path tells the entries apart, except
      for the two order entries. */
  lemma SecondCharacters()
    ensures forall i :: 0 <= i < |Navigation| ==> |Navigation[i].path| >= 2
    ensures forall i, j ::
              (0 <= i < |Navigation| && 0 <= j < |Navigation| && i != j
               && Navigation[i].path[1] == Navigation[j].path[1]) ==> {i, j} == {1, 2}
  {
  }

  /** Two different entries are never active together. */
  lemma OnlyOneActive(i: nat, j: nat, pathname: string)
    requires i < |Navigation| && j < |Navigation| && i != j
    requires IsActive(Navigation[i].path, pathname)
    ensures !IsActive(Navigation[j].path, pathname)
  {
    SecondCharacters();
    var p, q := Navigation[i].path, Navigation[j].path;
    ActivePrefix(p, pathname);
    assert pathname[1] == p[1];
    if p[1] != q[1] {
      assert !StartsWith(pathname, q);
      if IsActive(q, pathname) { ActivePrefix(q, pathname); }
    } else if i == 1 {
      assert pathname[..11] == "/orders/new";
      assert pathname != "/orders";
    } else {
      assert pathname == "/orders";
      assert !StartsWith(pathname, "/orders/new");
    }
  }

  /** The sidebar has eight entries with pairwise different paths. */
  lemma PathsDistinct()
    ensures |Navigation| == 8
    ensures forall i, j :: 0 <= i < j < |Navigation| ==> Navigation[i].path != Navigation[j].path
  {
    SecondCharacters();
    assert Navigation[1].path != Navigation[2].path by {
      assert |Navigation[1].path| != |Navigation[2].path|;
    }
  }

  /** On the new-order page exactly the New Order entry is highlighted. */
  lemma NewOrderHighlighted()
    ensures ActiveEntry("/orders/new") == Some(1)
    ensures Navigation[1].name == "New Order"
  {
    assert IsActive(Navigation[1].path, "/orders/new");
  }

  /** On an order's detail page no entry is highlighted. */
  lemma OrderDetailUnhighlighted(pathname: string)
    requires pathname == "/orders/7"
    ensures ActiveEntry(pathname) == None
  {
    assert !IsActive(Navigation[2].path, pathname);
    assert !IsActive(Navigation[1].path, pathname);
    SecondCharacters();
    forall j | 0 <= j < |Navigation| ensures !IsActive(Navigation[j].path, pathname) {
      if j != 1 && j != 2 {
        assert pathname[1] != Navigation[j].path[1];
        if IsActive(Navigation[j].path, pathname) { ActivePrefix(Navigation[j].path, pathname); }
      }
    }
  }

  /** A path that merely shares a prefix with an entry does not activate
      it: `/clientsX` is not below `/clients`. */
  lemma BarePrefixInactive(pathname: string)
    requires pathname == "/clientsX"
    ensures !IsActive("/clients", pathname)
  {
    assert pathname[8] == 'X';
  }
}
