/** The tokenizer's lookup tables as a command's declarations build them, and what the guards
    at registration make of them. */
module ArgvTables {
  import opened ArgvTokens
  import opened ArgvRoundTrip

  /** What parsing reads of a declared flag. A selector's choices each carry flags of their own. */
  datatype Declaration = Declaration(name: string, short: string, isBool: bool, negatable: bool, nullable: bool,
                                     choices: seq<Choice>)

  datatype Choice = Choice(flags: seq<Declaration>)

  /** A declaration and whether it stands outside every choice. */
  datatype Site = Site(flag: Declaration, root: bool)

  // --- The index: every declaration of the tree -------------------------------------------

  /** Declarations in order, each before those of its choices. */
  function Sites(flags: seq<Declaration>, root: bool): seq<Site>
    decreases flags, 0
  {
    if flags == [] then []
    else
      var last := flags[|flags| - 1];
      Sites(flags[..|flags| - 1], root) + [Site(last, root)] + ChoiceSites(last.choices)
  }

  function ChoiceSites(choices: seq<Choice>): seq<Site>
    decreases choices, 0
  {
    if choices == [] then [] else ChoiceSites(choices[..|choices| - 1]) + Sites(choices[|choices| - 1].flags, false)
  }

  function NamesOf(all: seq<Site>): seq<string> {
    if all == [] then []
    else
      var names, name := NamesOf(all[..|all| - 1]), all[|all| - 1].flag.name;
      if name in names then names else names + [name]
  }

  function Named(all: seq<Site>, name: string): seq<Site> {
    if all == [] then []
    else Named(all[..|all| - 1], name) + if all[|all| - 1].flag.name == name then [all[|all| - 1]] else []
  }

  function ShortsOf(all: seq<Site>): seq<string> {
    if all == [] then []
    else
      var shorts, short := ShortsOf(all[..|all| - 1]), all[|all| - 1].flag.short;
      if short == "" || short in shorts then shorts else shorts + [short]
  }

  function Claiming(all: seq<Site>, short: string): seq<Site> {
    if all == [] then []
    else Claiming(all[..|all| - 1], short) + if all[|all| - 1].flag.short == short then [all[|all| - 1]] else []
  }

  lemma {:induction false} NamedIff(all: seq<Site>, name: string)
    ensures name in NamesOf(all) <==> Named(all, name) != []
    ensures forall s :: s in Named(all, name) <==> s in all && s.flag.name == name
  {
    if all != [] {
      NamedIff(all[..|all| - 1], name);
      assert all == all[..|all| - 1] + [all[|all| - 1]];
    }
  }

  lemma {:induction false} ClaimingIff(all: seq<Site>, short: string)
    ensures short in ShortsOf(all) <==> short != "" && Claiming(all, short) != []
    ensures forall s :: s in Claiming(all, short) <==> s in all && s.flag.short == short
  {
    if all != [] {
      ClaimingIff(all[..|all| - 1], short);
      assert all == all[..|all| - 1] + [all[|all| - 1]];
    }
  }

  ghost predicate NameIndex(order: seq<string>, sites: map<string, seq<Site>>, all: seq<Site>) {
    order == NamesOf(all) && (forall n :: n in sites <==> n in order) &&
      forall n :: n in sites ==> sites[n] == Named(all, n)
  }

  ghost predicate ShortIndex(order: seq<string>, shorts: map<string, seq<Site>>, all: seq<Site>) {
    order == ShortsOf(all) && (forall s :: s in shorts <==> s in order) &&
      forall s :: s in shorts ==> shorts[s] == Claiming(all, s)
  }

  lemma NameAdded(order: seq<string>, sites: map<string, seq<Site>>, all: seq<Site>, site: Site)
    requires NameIndex(order, sites, all)
    ensures var name := site.flag.name;
      if name in sites then NameIndex(order, sites[name := sites[name] + [site]], all + [site])
      else NameIndex(order + [name], sites[name := [site]], all + [site])
  {
    assert (all + [site])[..|all|] == all;
    NamedIff(all, site.flag.name);
    assert [] + [site] == [site];
  }

  lemma ShortAdded(order: seq<string>, shorts: map<string, seq<Site>>, all: seq<Site>, site: Site)
    requires ShortIndex(order, shorts, all)
    ensures var short := site.flag.short;
      if short == "" then ShortIndex(order, shorts, all + [site])
      else if short in shorts then ShortIndex(order, shorts[short := shorts[short] + [site]], all + [site])
      else ShortIndex(order + [short], shorts[short := [site]], all + [site])
  {
    assert (all + [site])[..|all|] == all;
    ClaimingIff(all, site.flag.short);
    ClaimingIff(all, "");
    assert [] + [site] == [site];
  }

  lemma SitesStart(flags: seq<Declaration>, root: bool, all: seq<Site>)
    ensures all + Sites(flags[..0], root) == all && flags[..|flags|] == flags
  {
  }

  lemma SitesStep(flags: seq<Declaration>, i: nat, root: bool, all: seq<Site>)
    requires i < |flags|
    ensures all + Sites(flags[..i + 1], root)
      == all + Sites(flags[..i], root) + [Site(flags[i], root)] + ChoiceSites(flags[i].choices[..|flags[i].choices|])
  {
    assert flags[..i + 1][..i] == flags[..i] && flags[i].choices[..|flags[i].choices|] == flags[i].choices;
  }

  lemma ChoicesStart(choices: seq<Choice>, all: seq<Site>)
    ensures all + ChoiceSites(choices[..0]) == all
  {
  }

  lemma ChoicesStep(choices: seq<Choice>, j: nat, all: seq<Site>)
    requires j < |choices|
    ensures all + ChoiceSites(choices[..j + 1]) == all + ChoiceSites(choices[..j]) + Sites(choices[j].flags, false)
  {
    assert choices[..j + 1][..j] == choices[..j];
  }

  class FlagIndex {
    var order: seq<string>
    var sites: map<string, seq<Site>>
    var shortOrder: seq<string>
    var shorts: map<string, seq<Site>>

    /** The index of these declarations. */
    ghost predicate Indexes(all: seq<Site>)
      reads this
    {
      NameIndex(order, sites, all) && ShortIndex(shortOrder, shorts, all)
    }

    constructor ()
      ensures Indexes([])
    {
      order, sites, shortOrder, shorts := [], map[], [], map[];
    }

    method Add(site: Site, ghost all: seq<Site>)
      requires Indexes(all)
      modifies this
      ensures Indexes(all + [site])
    {
      hide NameIndex, ShortIndex;
      var name, short := site.flag.name, site.flag.short;
      NameAdded(order, sites, all, site);
      ShortAdded(shortOrder, shorts, all, site);
      if name !in sites {
        order := order + [name];
        sites := sites[name := [site]];
      } else {
        sites := sites[name := sites[name] + [site]];
      }
      if short != "" {
        if short !in shorts {
          shortOrder := shortOrder + [short];
          shorts := shorts[short := [site]];
        } else {
          shorts := shorts[short := shorts[short] + [site]];
        }
      }
    }

    /** The recursive walk of the scope tree. */
    method Walk(flags: seq<Declaration>, root: bool, ghost all: seq<Site>)
      requires Indexes(all)
      modifies this
      ensures Indexes(all + Sites(flags, root))
      decreases flags
    {
      hide NameIndex, ShortIndex, Indexes, Sites, ChoiceSites;
      SitesStart(flags, root, all);
      for i := 0 to |flags|
        invariant Indexes(all + Sites(flags[..i], root))
      {
        var f := flags[i];
        ghost var own := all + Sites(flags[..i], root) + [Site(f, root)];
        Add(Site(f, root), all + Sites(flags[..i], root));
        ChoicesStart(f.choices, own);
        for j := 0 to |f.choices|
          invariant Indexes(own + ChoiceSites(f.choices[..j]))
        {
          Walk(f.choices[j].flags, false, own + ChoiceSites(f.choices[..j]));
          ChoicesStep(f.choices, j, own);
        }
        SitesStep(flags, i, root, all);
      }
    }
  }

  // --- The tables ----------------------------------------------------------------------------

  function Read(f: Declaration): Flag {
    Flag(f.name, f.isBool)
  }

  /** A flag recognized by its name, and by its negation when it has one. */
  function WithNames(t: Tables, f: Declaration): Tables {
    t.(longs := t.longs[Long(f.name) := Read(f)],
       negations := if f.isBool && f.negatable then t.negations[Negation(f.name) := Read(f)] else t.negations)
  }

  function WithUnset(t: Tables, f: Declaration): Tables {
    if f.nullable then t.(unsets := t.unsets[Unset(f.name) := Read(f)]) else t
  }

  function WithShort(t: Tables, short: string, f: Declaration): Tables {
    t.(shorts := t.shorts["-" + short := Read(f)])
  }

  function WithGlobal(t: Tables, g: Declaration): Tables {
    WithNames(if g.short != "" then WithShort(t, g.short, g) else t, g)
  }

  /** The first declaration of a name answers for it. */
  function First(all: seq<Site>, name: string): Site
    requires name in NamesOf(all)
  {
    NamedIff(all, name);
    Named(all, name)[0]
  }

  function FirstClaiming(all: seq<Site>, short: string): Site
    requires short in ShortsOf(all)
  {
    ClaimingIff(all, short);
    Claiming(all, short)[0]
  }

  function NameTables(names: seq<string>, all: seq<Site>): Tables
    requires forall n :: n in names ==> n in NamesOf(all)
  {
    if names == [] then Tables(map[], map[], map[], map[])
    else
      var f := First(all, names[|names| - 1]).flag;
      WithUnset(WithNames(NameTables(names[..|names| - 1], all), f), f)
  }

  function ShortTables(t: Tables, shorts: seq<string>, all: seq<Site>): Tables
    requires forall s :: s in shorts ==> s in ShortsOf(all)
  {
    if shorts == [] then t
    else
      var short := shorts[|shorts| - 1];
      WithShort(ShortTables(t, shorts[..|shorts| - 1], all), short, FirstClaiming(all, short).flag)
  }

  function GlobalTables(t: Tables, globals: seq<Declaration>): Tables {
    if globals == [] then t else WithGlobal(GlobalTables(t, globals[..|globals| - 1]), globals[|globals| - 1])
  }

  /** The command's own flags, then their shorts, then the global flags over both. */
  function TablesOf(flags: seq<Declaration>, globals: seq<Declaration>): Tables {
    var all := Sites(flags, true);
    GlobalTables(ShortTables(NameTables(NamesOf(all), all), ShortsOf(all), all), globals)
  }

  lemma NameStep(order: seq<string>, sites: map<string, seq<Site>>, all: seq<Site>, i: nat)
    requires NameIndex(order, sites, all) && i < |order|
    ensures order[i] in sites && sites[order[i]] != []
    ensures var f := sites[order[i]][0].flag;
      NameTables(order[..i + 1], all) == WithUnset(WithNames(NameTables(order[..i], all), f), f)
  {
    hide WithUnset, WithNames, NamesOf, Named;
    assert order[i] in order;
    NamedIff(all, order[i]);
    assert order[..i + 1][..i] == order[..i];
  }

  lemma ShortStep(t: Tables, order: seq<string>, shorts: map<string, seq<Site>>, all: seq<Site>, i: nat)
    requires ShortIndex(order, shorts, all) && i < |order|
    ensures order[i] in shorts && shorts[order[i]] != []
    ensures ShortTables(t, order[..i + 1], all) ==
      WithShort(ShortTables(t, order[..i], all), order[i], shorts[order[i]][0].flag)
  {
    hide WithShort, ShortsOf, Claiming;
    assert order[i] in order;
    ClaimingIff(all, order[i]);
    assert order[..i + 1][..i] == order[..i];
  }

  lemma GlobalStep(t: Tables, globals: seq<Declaration>, i: nat)
    requires i < |globals|
    ensures GlobalTables(t, globals[..i + 1]) == WithGlobal(GlobalTables(t, globals[..i]), globals[i])
  {
    assert globals[..i + 1][..i] == globals[..i];
  }

  lemma Starts(all: seq<Site>)
    ensures NameTables([], all) == Tables(map[], map[], map[], map[])
  {
  }

  lemma NoShorts(t: Tables, all: seq<Site>)
    ensures ShortTables(t, [], all) == t
  {
  }

  lemma NoGlobals(t: Tables)
    ensures GlobalTables(t, []) == t
  {
  }

  /** The start of parseCommand. */
  method BuildTables(flags: seq<Declaration>, globals: seq<Declaration>) returns (t: Tables)
    ensures t == TablesOf(flags, globals)
  {
    hide NamesOf, ShortsOf, Sites, NameTables, ShortTables, GlobalTables, WithNames, WithUnset, WithShort, WithGlobal;
    var index := new FlagIndex();
    ghost var all := Sites(flags, true);
    assert [] + all == all;
    index.Walk(flags, true, []);
    var order, shortOrder, sites, shorts := index.order, index.shortOrder, index.sites, index.shorts;
    assert NameIndex(order, sites, all) && ShortIndex(shortOrder, shorts, all);
    t := Tables(map[], map[], map[], map[]);
    Starts(all);
    for i := 0 to |order|
      invariant t == NameTables(order[..i], all)
    {
      NameStep(order, sites, all, i);
      var f := sites[order[i]][0].flag;
      t := WithUnset(WithNames(t, f), f);
    }
    assert order[..|order|] == order;
    ghost var named := t;
    NoShorts(named, all);
    for i := 0 to |shortOrder|
      invariant t == ShortTables(named, shortOrder[..i], all)
    {
      ShortStep(named, shortOrder, shorts, all, i);
      t := WithShort(t, shortOrder[i], shorts[shortOrder[i]][0].flag);
    }
    assert shortOrder[..|shortOrder|] == shortOrder;
    ghost var own := t;
    NoGlobals(own);
    for i := 0 to |globals|
      invariant t == GlobalTables(own, globals[..i])
    {
      GlobalStep(own, globals, i);
      t := WithGlobal(t, globals[i]);
    }
    assert globals[..|globals|] == globals;
  }

  // --- What registration lets through ------------------------------------------------------

  function UnsetName(name: string): string {
    "unset-" + name
  }

  /** isKebabName: two characters or more, no hyphen at the end and no two in a row. */
  predicate KebabName(name: string) {
    && |name| >= 2 && Kebab(name) && name[|name| - 1] != '-'
    && forall i :: 0 < i < |name| ==> !(name[i - 1] == '-' && name[i] == '-')
  }

  predicate ShortForm(short: string) {
    |short| == 1 && ('a' <= short[0] <= 'z' || 'A' <= short[0] <= 'Z')
  }

  /** What validateFlagConfig asks of the names of a flag. */
  predicate ValidFlag(f: Declaration) {
    !("no-" <= f.name) && KebabName(f.name) && (f.short == "" || ShortForm(f.short))
  }

  /** Two declarations of one name are both a choice's and take values alike. */
  ghost predicate NamesShared(all: seq<Site>) {
    forall i, j :: 0 <= i < j < |all| && all[i].flag.name == all[j].flag.name ==>
      !all[i].root && !all[j].root && all[i].flag.isBool == all[j].flag.isBool
  }

  ghost predicate DistinctGlobals(globals: seq<Declaration>) {
    forall i, j :: 0 <= i < j < |globals| ==> globals[i].name != globals[j].name
  }

  /** A command's flags and the app's globals past the guards that always see both. */
  ghost predicate Registered(flags: seq<Declaration>, globals: seq<Declaration>) {
    var all := Sites(flags, true);
    && (forall x :: x in all ==> ValidFlag(x.flag)) && (forall g :: g in globals ==> ValidFlag(g))
    && NamesShared(all) && DistinctGlobals(globals)
  }

  /** No flag outside the choices has a global flag's name. */
  ghost predicate NoCollision(all: seq<Site>, globals: seq<Declaration>) {
    forall x, g :: x in all && x.root && g in globals ==> x.flag.name != g.name
  }

  /** Nothing is named like the clear of a property, which stands outside the choices. */
  ghost predicate UnsetsReserved(all: seq<Site>, globals: seq<Declaration>) {
    forall x :: x in all && x.root && x.flag.nullable ==>
      (forall y :: y in all ==> y.flag.name != UnsetName(x.flag.name)) &&
      forall g :: g in globals ==> g.name != UnsetName(x.flag.name)
  }

  /** The globals were registered before the command, whose guards compare its flags with the
      globals they find and are not run again for later ones. */
  ghost predicate GlobalsFirst(flags: seq<Declaration>, globals: seq<Declaration>) {
    NoCollision(Sites(flags, true), globals) && UnsetsReserved(Sites(flags, true), globals)
  }

  // --- What the tables hold -------------------------------------------------------------------

  /** A declaration's entry under a name. */
  predicate Entered(all: seq<Site>, names: seq<string>, name: string, entry: Flag) {
    name in names && name in NamesOf(all) && entry == Read(First(all, name).flag)
  }

  /** Every spelling is the dashes and a name, and leads to the first declaration of it. */
  ghost predicate Holding(m: map<string, Flag>, dashes: string, names: seq<string>, all: seq<Site>) {
    forall k :: k in m ==> dashes <= k && Entered(all, names, k[|dashes|..], m[k])
  }

  /** The clears are those of the nullable names. */
  ghost predicate Clearing(m: map<string, Flag>, names: seq<string>, all: seq<Site>) {
    && Holding(m, "--unset-", names, all)
    && (forall k :: k in m ==> First(all, k[8..]).flag.nullable)
    && forall n :: n in names && n in NamesOf(all) && First(all, n).flag.nullable ==> Unset(n) in m
  }

  ghost predicate NamesHold(names: seq<string>, all: seq<Site>, t: Tables) {
    && t.shorts == map[] && (forall n :: n in names ==> Long(n) in t.longs)
    && Holding(t.longs, "--", names, all) && Holding(t.negations, "--no-", names, all) && Clearing(t.unsets, names, all)
  }

  lemma HoldingMore(m: map<string, Flag>, dashes: string, names: seq<string>, all: seq<Site>, name: string)
    requires Holding(m, dashes, names, all) && name in NamesOf(all)
    ensures Holding(m, dashes, names + [name], all)
    ensures Holding(m[dashes + name := Read(First(all, name).flag)], dashes, names + [name], all)
  {
    hide NamesOf, First;
    assert (dashes + name)[|dashes|..] == name;
  }

  lemma ClearingMore(m: map<string, Flag>, names: seq<string>, all: seq<Site>, name: string)
    requires Clearing(m, names, all) && name in NamesOf(all)
    ensures !First(all, name).flag.nullable ==> Clearing(m, names + [name], all)
    ensures First(all, name).flag.nullable ==>
      Clearing(m[Unset(name) := Read(First(all, name).flag)], names + [name], all)
  {
    HoldingMore(m, "--unset-", names, all, name);
    hide NamesOf, First, Holding;
    assert Unset(name)[8..] == name;
  }

  lemma {:induction false} NameTablesHold(names: seq<string>, all: seq<Site>)
    requires forall n :: n in names ==> n in NamesOf(all)
    ensures NamesHold(names, all, NameTables(names, all))
  {
    if names != [] {
      var front, name := names[..|names| - 1], names[|names| - 1];
      NameTablesHold(front, all);
      assert names == front + [name];
      var t := NameTables(front, all);
      FirstNamed(all, name);
      HoldingMore(t.longs, "--", front, all, name);
      HoldingMore(t.negations, "--no-", front, all, name);
      ClearingMore(t.unsets, front, all, name);
      hide NamesOf, First, Holding, Clearing;
    }
  }

  lemma FirstNamed(all: seq<Site>, name: string)
    requires name in NamesOf(all)
    ensures First(all, name) in all && First(all, name).flag.name == name
  {
    NamedIff(all, name);
  }

  /** Each short leads to the first declaration that claims it. */
  ghost predicate ShortsHold(m: map<string, Flag>, shorts: seq<string>, all: seq<Site>) {
    forall k :: k in m ==>
      "-" <= k && k[1..] in shorts && k[1..] in ShortsOf(all) && m[k] == Read(FirstClaiming(all, k[1..]).flag)
  }

  lemma {:induction false} ShortTablesHold(t: Tables, shorts: seq<string>, all: seq<Site>)
    requires t.shorts == map[] && forall s :: s in shorts ==> s in ShortsOf(all)
    ensures var r := ShortTables(t, shorts, all); ShortsHold(r.shorts, shorts, all) && r.(shorts := map[]) == t
  {
    if shorts != [] {
      var front, short := shorts[..|shorts| - 1], shorts[|shorts| - 1];
      ShortTablesHold(t, front, all);
      assert shorts == front + [short];
      assert ("-" + short)[1..] == short;
      hide ShortsOf, FirstClaiming;
    }
  }

  /** An entry one of the globals made. */
  predicate Global(globals: seq<Declaration>, f: Flag) {
    exists g :: g in globals && f == Read(g)
  }

  /** The global flags over the command's own: their entries, and the rest as it was. */
  ghost predicate Mixed(m: map<string, Flag>, own: map<string, Flag>, dashes: string, globals: seq<Declaration>) {
    forall k :: k in m ==> (k in own && m[k] == own[k]) || (Global(globals, m[k]) && k == dashes + m[k].name)
  }

  ghost predicate Over(globals: seq<Declaration>, own: Tables, t: Tables) {
    && (forall g :: g in globals ==> Long(g.name) in t.longs && t.longs[Long(g.name)] == Read(g))
    && (forall k :: k in own.longs ==> k in t.longs)
    && Mixed(t.longs, own.longs, "--", globals) && Mixed(t.negations, own.negations, "--no-", globals)
    && t.unsets == own.unsets
  }

  ghost predicate ShortsOver(globals: seq<Declaration>, own: Tables, t: Tables) {
    forall k :: k in t.shorts ==>
      (k in own.shorts && t.shorts[k] == own.shorts[k]) || exists g :: g in globals && Claimed(g, k, t.shorts[k])
  }

  predicate Claimed(g: Declaration, spelling: string, entry: Flag) {
    g.short != "" && spelling == "-" + g.short && entry == Read(g)
  }

  lemma {:induction false} GlobalTablesHold(own: Tables, globals: seq<Declaration>)
    requires DistinctGlobals(globals)
    ensures Over(globals, own, GlobalTables(own, globals)) && ShortsOver(globals, own, GlobalTables(own, globals))
  {
    if globals != [] {
      var front, g := globals[..|globals| - 1], globals[|globals| - 1];
      GlobalTablesHold(own, front);
      assert globals == front + [g];
      var t := GlobalTables(own, front);
      OverMore(front, g, own, t);
      ShortsOverMore(front, g, own, t);
    }
  }

  lemma MixedMore(m: map<string, Flag>, own: map<string, Flag>, dashes: string, front: seq<Declaration>, g: Declaration)
    requires Mixed(m, own, dashes, front)
    ensures Mixed(m, own, dashes, front + [g]) && Mixed(m[dashes + g.name := Read(g)], own, dashes, front + [g])
  {
    forall f | Global(front, f) ensures Global(front + [g], f) {
      var x :| x in front && f == Read(x);
      assert x in front + [g];
    }
    assert Global(front + [g], Read(g)) by { assert g in front + [g]; }
    hide Global;
  }

  lemma OverMore(front: seq<Declaration>, g: Declaration, own: Tables, t: Tables)
    requires DistinctGlobals(front + [g]) && Over(front, own, t)
    ensures Over(front + [g], own, WithGlobal(t, g))
  {
    GlobalsEntered(front, g, t.longs);
    MixedMore(t.longs, own.longs, "--", front, g);
    MixedMore(t.negations, own.negations, "--no-", front, g);
    hide DistinctGlobals, Global, Mixed, Long, Negation;
    var n := WithGlobal(t, g);
    assert n.longs == t.longs["--" + g.name := Read(g)] && n.unsets == t.unsets by { NamesWith(t, g); }
    assert n.negations == t.negations || n.negations == t.negations["--no-" + g.name := Read(g)] by { NamesWith(t, g); }
    assert Long(g.name) == "--" + g.name by { NamesWith(t, g); }
  }

  lemma NamesWith(t: Tables, g: Declaration)
    ensures var n := WithGlobal(t, g);
      && Long(g.name) == "--" + g.name && n.longs == t.longs["--" + g.name := Read(g)] && n.unsets == t.unsets
      && (n.negations == t.negations || n.negations == t.negations["--no-" + g.name := Read(g)])
  {
  }

  /** A global's entry leaves those of the globals before it. */
  lemma GlobalsEntered(front: seq<Declaration>, g: Declaration, m: map<string, Flag>)
    requires DistinctGlobals(front + [g]) && forall x :: x in front ==> Long(x.name) in m && m[Long(x.name)] == Read(x)
    ensures var n := m[Long(g.name) := Read(g)];
      forall x :: x in front + [g] ==> Long(x.name) in n && n[Long(x.name)] == Read(x)
  {
    forall x | x in front ensures Long(x.name) != Long(g.name) {
      var i :| 0 <= i < |front| && front[i] == x;
      assert (front + [g])[i] == x && (front + [g])[|front|] == g;
      assert Long(x.name)[2..] == x.name && Long(g.name)[2..] == g.name;
    }
    hide DistinctGlobals, Long;
  }

  lemma ShortsOverMore(front: seq<Declaration>, g: Declaration, own: Tables, t: Tables)
    requires ShortsOver(front, own, t)
    ensures ShortsOver(front + [g], own, WithGlobal(t, g))
  {
    var globals, n := front + [g], WithGlobal(t, g);
    assert g in globals;
    forall k | k in n.shorts
      ensures (k in own.shorts && n.shorts[k] == own.shorts[k]) ||
        exists x :: x in globals && Claimed(x, k, n.shorts[k])
    {
      if k in t.shorts && n.shorts[k] == t.shorts[k] {
        if !(k in own.shorts && n.shorts[k] == own.shorts[k]) {
          var x :| x in front && Claimed(x, k, t.shorts[k]);
          assert x in globals;
        }
      } else {
        assert Claimed(g, k, n.shorts[k]);
      }
    }
  }

  // --- When the tables agree -----------------------------------------------------------------

  /** A global flag has the name and takes values the other way. */
  predicate Shadowed(f: Flag, globals: seq<Declaration>) {
    exists g :: g in globals && g.name == f.name && g.isBool != f.isBool
  }

  /** A nullable flag mints this name for its clear. */
  predicate Minted(name: string, all: seq<Site>) {
    exists n :: n in NamesOf(all) && First(all, n).flag.nullable && name == UnsetName(n)
  }

  /** What building leaves, stage by stage. */
  lemma Built(flags: seq<Declaration>, globals: seq<Declaration>) returns (own: Tables)
    requires DistinctGlobals(globals)
    ensures var all := Sites(flags, true);
      && NamesHold(NamesOf(all), all, own.(shorts := map[])) && ShortsHold(own.shorts, ShortsOf(all), all)
      && Over(globals, own, TablesOf(flags, globals)) && ShortsOver(globals, own, TablesOf(flags, globals))
  {
    var all := Sites(flags, true);
    var named := NameTables(NamesOf(all), all);
    NameTablesHold(NamesOf(all), all);
    ShortTablesHold(named, ShortsOf(all), all);
    own := ShortTables(named, ShortsOf(all), all);
    GlobalTablesHold(own, globals);
  }

  /** A flag the command or the app declares. */
  predicate Declared(f: Flag, all: seq<Site>, globals: seq<Declaration>) {
    (exists x :: x in all && f == Read(x.flag)) || Global(globals, f)
  }

  lemma EnteredDeclared(name: string, entry: Flag, all: seq<Site>, globals: seq<Declaration>)
    requires Entered(all, NamesOf(all), name, entry)
    ensures Declared(entry, all, globals) && entry.name == name
  {
    FirstNamed(all, name);
  }

  lemma HoldingSpells(m: map<string, Flag>, dashes: string, all: seq<Site>, globals: seq<Declaration>, k: string)
    requires Holding(m, dashes, NamesOf(all), all) && k in m
    ensures k == dashes + m[k].name && Declared(m[k], all, globals)
  {
    EnteredDeclared(k[|dashes|..], m[k], all, globals);
    assert k == dashes + k[|dashes|..];
  }

  lemma DeclaredKebab(f: Flag, flags: seq<Declaration>, globals: seq<Declaration>)
    requires Registered(flags, globals) && Declared(f, Sites(flags, true), globals)
    ensures Kebab(f.name) && !("no-" <= f.name)
  {
  }

  lemma ShortDeclared(flags: seq<Declaration>, globals: seq<Declaration>, own: Tables, k: string)
    requires Registered(flags, globals) && ShortsHold(own.shorts, ShortsOf(Sites(flags, true)), Sites(flags, true))
    requires ShortsOver(globals, own, TablesOf(flags, globals)) && k in TablesOf(flags, globals).shorts
    ensures |k| == 2 && k[0] == '-' && k[1] != '-'
    ensures Declared(TablesOf(flags, globals).shorts[k], Sites(flags, true), globals)
  {
    var t, all := TablesOf(flags, globals), Sites(flags, true);
    hide TablesOf, Sites;
    if k in own.shorts && t.shorts[k] == own.shorts[k] {
      var short := k[1..];
      ClaimingIff(all, short);
      var x := FirstClaiming(all, short);
      assert x in all && x.flag.short == short && short != "" && ValidFlag(x.flag);
      assert k == "-" + short;
    } else {
      var g :| g in globals && Claimed(g, k, t.shorts[k]);
      assert ValidFlag(g) && Global(globals, t.shorts[k]);
    }
  }

  ghost predicate KebabNames(all: seq<Site>, globals: seq<Declaration>) {
    (forall x :: x in all ==> Kebab(x.flag.name)) && forall g :: g in globals ==> Kebab(g.name)
  }

  /** Every spelling of a table is the dashes and its flag's name. */
  ghost predicate Spelling(m: map<string, Flag>, dashes: string) {
    forall k :: k in m ==> k == dashes + m[k].name && Kebab(m[k].name)
  }

  lemma MixedSpells(m: map<string, Flag>, own: map<string, Flag>, dashes: string, all: seq<Site>,
                    globals: seq<Declaration>)
    requires KebabNames(all, globals) && Mixed(m, own, dashes, globals) && Holding(own, dashes, NamesOf(all), all)
    ensures Spelling(m, dashes)
  {
    hide NamesOf, Kebab, Holding;
    forall k | k in m ensures k == dashes + m[k].name && Kebab(m[k].name) {
      if k in own && m[k] == own[k] { HoldingSpells(own, dashes, all, globals, k); }
    }
  }

  lemma ItselfMixed(m: map<string, Flag>, dashes: string, globals: seq<Declaration>)
    ensures Mixed(m, m, dashes, globals)
  {
  }

  lemma ShortsDeclared(flags: seq<Declaration>, globals: seq<Declaration>)
    requires Registered(flags, globals)
    ensures var t := TablesOf(flags, globals);
      forall k :: k in t.shorts ==> ShortSpells(k, t.shorts[k], Sites(flags, true), globals)
  {
    var own := Built(flags, globals);
    var t, all := TablesOf(flags, globals), Sites(flags, true);
    forall k | k in t.shorts ensures ShortSpells(k, t.shorts[k], all, globals) {
      ShortDeclared(flags, globals, own, k);
      DeclaredKebab(t.shorts[k], flags, globals);
    }
  }

  predicate ShortSpells(k: string, f: Flag, all: seq<Site>, globals: seq<Declaration>) {
    |k| == 2 && k[0] == '-' && k[1] != '-' && Kebab(f.name) && Declared(f, all, globals)
  }

  lemma Spellings(all: seq<Site>, globals: seq<Declaration>, own: Tables, t: Tables)
    requires KebabNames(all, globals) && NamesHold(NamesOf(all), all, own.(shorts := map[])) && Over(globals, own, t)
    ensures Spelling(t.longs, "--") && Spelling(t.negations, "--no-") && Spelling(t.unsets, "--unset-")
  {
    hide NamesOf, KebabNames, Mixed, Holding, Spelling;
    MixedSpells(t.longs, own.longs, "--", all, globals);
    MixedSpells(t.negations, own.negations, "--no-", all, globals);
    ItselfMixed(own.unsets, "--unset-", globals);
    MixedSpells(own.unsets, own.unsets, "--unset-", all, globals);
  }

  lemma SpelledWellFormed(t: Tables, all: seq<Site>, globals: seq<Declaration>)
    requires Spelling(t.longs, "--") && Spelling(t.negations, "--no-") && Spelling(t.unsets, "--unset-")
    requires forall k :: k in t.shorts ==> ShortSpells(k, t.shorts[k], all, globals)
    ensures WellFormed(t) && forall k :: k in t.shorts ==> Declared(t.shorts[k], all, globals)
  {
    hide Kebab, Declared;
  }

  /** The tables of registered declarations are well formed, and their shorts are declared. */
  lemma TablesWellFormed(flags: seq<Declaration>, globals: seq<Declaration>)
    requires Registered(flags, globals)
    ensures WellFormed(TablesOf(flags, globals))
    ensures forall k :: k in TablesOf(flags, globals).shorts ==>
      Declared(TablesOf(flags, globals).shorts[k], Sites(flags, true), globals)
  {
    ShortsDeclared(flags, globals);
    var own := Built(flags, globals);
    var t, all := TablesOf(flags, globals), Sites(flags, true);
    assert KebabNames(all, globals);
    hide TablesOf, Sites, Registered, NamesOf, KebabNames, Kebab, ShortsHold, ShortsOver, Over, NamesHold;
    hide Spelling, ShortSpells, WellFormed;
    Spellings(all, globals, own, t);
    SpelledWellFormed(t, all, globals);
  }

  /** A flag's long spelling agrees with it unless a global flag shadows the name or a clear
      takes it. */
  lemma AgreesIff(flags: seq<Declaration>, globals: seq<Declaration>, f: Flag)
    requires Registered(flags, globals) && Declared(f, Sites(flags, true), globals)
    ensures Agrees(TablesOf(flags, globals), f) <==>
      !Shadowed(f, globals) && !(f.isBool && Minted(f.name, Sites(flags, true)))
  {
    var own := Built(flags, globals);
    var t, all := TablesOf(flags, globals), Sites(flags, true);
    LongAgrees(flags, globals, f, own);
    TablesWellFormed(flags, globals);
    NoNegation(t, f.name) by { DeclaredKebab(f, flags, globals); }
    UnsetIff(flags, globals, f, own);
  }

  lemma NoNegation(t: Tables, name: string)
    requires WellFormed(t) && !("no-" <= name)
    ensures Long(name) !in t.negations
  {
    assert Long(name)[2..] == name;
    forall n: string ensures Negation(n)[2..] == "no-" + n {
    }
  }

  lemma LongAgrees(flags: seq<Declaration>, globals: seq<Declaration>, f: Flag, own: Tables)
    requires Registered(flags, globals) && Declared(f, Sites(flags, true), globals)
    requires NamesHold(NamesOf(Sites(flags, true)), Sites(flags, true), own.(shorts := map[]))
    requires Over(globals, own, TablesOf(flags, globals))
    ensures var t := TablesOf(flags, globals);
      Long(f.name) in t.longs && (t.longs[Long(f.name)].isBool == f.isBool <==> !Shadowed(f, globals))
  {
    var t, all := TablesOf(flags, globals), Sites(flags, true);
    hide TablesOf, Sites;
    if g :| g in globals && g.name == f.name {
      assert t.longs[Long(f.name)] == Read(g);
    } else {
      var x :| x in all && f == Read(x.flag);
      LongOwn(all, x, own.longs);
      OwnStays(globals, own, t, f.name);
    }
  }

  /** A command's own flag and its name's first declaration take values alike. */
  lemma LongOwn(all: seq<Site>, x: Site, longs: map<string, Flag>)
    requires NamesShared(all) && x in all && Holding(longs, "--", NamesOf(all), all)
    requires forall n :: n in NamesOf(all) ==> Long(n) in longs
    ensures Long(x.flag.name) in longs && longs[Long(x.flag.name)].isBool == x.flag.isBool
  {
    var k := Long(x.flag.name);
    assert k[2..] == x.flag.name;
    NamedIff(all, x.flag.name);
    FirstNamed(all, x.flag.name);
    SameShape(all, First(all, x.flag.name), x);
    hide NamesOf, First, NamesShared;
  }

  /** A name no global has keeps its entry. */
  lemma OwnStays(globals: seq<Declaration>, own: Tables, t: Tables, name: string)
    requires Over(globals, own, t) && Long(name) in own.longs && forall g :: g in globals ==> g.name != name
    ensures Long(name) in t.longs && t.longs[Long(name)] == own.longs[Long(name)]
  {
    var k := Long(name);
    forall f | Global(globals, f) ensures k != Long(f.name) {
      assert Long(f.name)[2..] == f.name && k[2..] == name;
    }
  }

  lemma SameShape(all: seq<Site>, x: Site, y: Site)
    requires NamesShared(all) && x in all && y in all && x.flag.name == y.flag.name
    ensures x.flag.isBool == y.flag.isBool
  {
    var i :| 0 <= i < |all| && all[i] == x;
    var j :| 0 <= j < |all| && all[j] == y;
  }

  lemma UnsetIff(flags: seq<Declaration>, globals: seq<Declaration>, f: Flag, own: Tables)
    requires Registered(flags, globals) && Declared(f, Sites(flags, true), globals)
    requires NamesHold(NamesOf(Sites(flags, true)), Sites(flags, true), own.(shorts := map[]))
    requires Over(globals, own, TablesOf(flags, globals))
    ensures Long(f.name) in TablesOf(flags, globals).unsets <==> Minted(f.name, Sites(flags, true))
  {
    if Long(f.name) in own.unsets { UnsetMinted(Sites(flags, true), f.name, own.unsets); }
    if Minted(f.name, Sites(flags, true)) { MintedUnset(f.name, Sites(flags, true), own.unsets); }
  }

  lemma LongUnset(n: string)
    ensures Long(UnsetName(n)) == Unset(n)
  {
    assert "--" + "unset-" == "--unset-";
    assert "--" + ("unset-" + n) == ("--" + "unset-") + n;
  }

  /** A clear that a name spells was minted. */
  lemma UnsetMinted(all: seq<Site>, name: string, unsets: map<string, Flag>)
    requires Clearing(unsets, NamesOf(all), all) && Long(name) in unsets
    ensures Minted(name, all)
  {
    hide NamesOf;
    var k := Long(name);
    var n := k[8..];
    assert k == "--unset-" + n;
    LongUnset(n);
    assert Long(name)[2..] == name && Long(UnsetName(n))[2..] == UnsetName(n);
  }

  lemma MintedUnset(name: string, all: seq<Site>, unsets: map<string, Flag>)
    requires Minted(name, all) && Clearing(unsets, NamesOf(all), all)
    ensures Long(name) in unsets
  {
    hide NamesOf;
    var n :| n in NamesOf(all) && First(all, n).flag.nullable && name == UnsetName(n);
    LongUnset(n);
  }

  /** Which registered commands have an argv that does not survive the long form: those with a
      short of a flag that a global shadows, or of a boolean flag named like a clear. */
  lemma DeclaredRoundTrip(flags: seq<Declaration>, globals: seq<Declaration>)
    requires Registered(flags, globals)
    ensures var t := TablesOf(flags, globals);
      (forall tokens :: Kept(tokens, t)) <==>
      forall k :: k in t.shorts ==>
        !Shadowed(t.shorts[k], globals) && !(t.shorts[k].isBool && Minted(t.shorts[k].name, Sites(flags, true)))
  {
    var t, all := TablesOf(flags, globals), Sites(flags, true);
    TablesWellFormed(flags, globals);
    hide TablesOf, Sites, Agrees, Kept;
    RoundTrip(t);
    forall k | k in t.shorts
      ensures Agrees(t, t.shorts[k]) <==>
        !Shadowed(t.shorts[k], globals) && !(t.shorts[k].isBool && Minted(t.shorts[k].name, all))
    {
      AgreesIff(flags, globals, t.shorts[k]);
    }
  }

  /** A command registered after the globals, with every declaration outside choices: every
      accepted argv survives. */
  lemma UnscopedRoundTrip(flags: seq<Declaration>, globals: seq<Declaration>)
    requires Registered(flags, globals) && GlobalsFirst(flags, globals) &&
      forall x :: x in Sites(flags, true) ==> x.root
    ensures forall tokens :: Kept(tokens, TablesOf(flags, globals))
  {
    var t, all := TablesOf(flags, globals), Sites(flags, true);
    TablesWellFormed(flags, globals);
    DeclaredRoundTrip(flags, globals);
    hide TablesOf, Sites, Kept, NamesOf;
    forall k | k in t.shorts ensures !Shadowed(t.shorts[k], globals) && !Minted(t.shorts[k].name, all) {
      NeverShadowed(all, globals, t.shorts[k]);
      NeverMinted(all, globals, t.shorts[k]);
    }
  }

  lemma NeverShadowed(all: seq<Site>, globals: seq<Declaration>, f: Flag)
    requires DistinctGlobals(globals) && NoCollision(all, globals) && (forall x :: x in all ==> x.root)
    requires Declared(f, all, globals)
    ensures !Shadowed(f, globals)
  {
  }

  lemma NeverMinted(all: seq<Site>, globals: seq<Declaration>, f: Flag)
    requires UnsetsReserved(all, globals) && (forall x :: x in all ==> x.root) && Declared(f, all, globals)
    ensures !Minted(f.name, all)
  {
    forall n | n in NamesOf(all) && First(all, n).flag.nullable ensures f.name != UnsetName(n) {
      FirstNamed(all, n);
    }
  }

  // --- Registered commands with an argv that does not survive -------------------------------------

  /** A choice carries a nullable "mode", and a boolean flag beside the selector is named like
      its clear. */
  function ClearInChoice(): seq<Declaration> {
    [Declaration("unset-mode", "u", true, true, false, []),
     Declaration("target", "", false, false, false,
                 [Choice([Declaration("mode", "", false, false, true, [])]), Choice([])])]
  }

  /** A choice carries a "level" with a value, and a global boolean flag has that name. */
  function LevelInChoice(): seq<Declaration> {
    [Declaration("target", "", false, false, false,
                 [Choice([Declaration("level", "l", false, false, false, [])]), Choice([])])]
  }

  function LevelGlobal(): seq<Declaration> {
    [Declaration("level", "", true, true, false, [])]
  }

  /** A selector of one name whose first choice carries one flag. */
  lemma OneScoped(sel: Declaration, sub: Declaration)
    requires sel.choices == [Choice([sub]), Choice([])] && sub.choices == []
    ensures Sites([sel], true) == [Site(sel, true), Site(sub, false)]
    ensures ChoiceSites(sel.choices) == [Site(sub, false)]
  {
    assert [sub][..0] == [] && [sel][..0] == [];
    assert Sites([sub], false) == [Site(sub, false)];
    assert sel.choices[..1] == [Choice([sub])] && sel.choices[..1][..0] == [];
    assert ChoiceSites([Choice([sub])]) == [] + Sites([sub], false);
    assert ChoiceSites(sel.choices) == [Site(sub, false)] + [];
  }

  lemma ClearSites()
    ensures var d := ClearInChoice();
      Sites(d, true) == [Site(d[0], true), Site(d[1], true), Site(d[1].choices[0].flags[0], false)]
  {
    var d := ClearInChoice();
    OneScoped(d[1], d[1].choices[0].flags[0]);
    assert d[..1] == [d[0]] && d[..1][..0] == [];
    assert Sites([d[0]], true) == [Site(d[0], true)];
  }

  lemma {:induction false} ShortReached(t: Tables, shorts: seq<string>, all: seq<Site>, short: string)
    requires (forall s :: s in shorts ==> s in ShortsOf(all)) && (short in shorts || "-" + short in t.shorts)
    ensures "-" + short in ShortTables(t, shorts, all).shorts
  {
    if shorts != [] {
      var front := shorts[..|shorts| - 1];
      assert shorts == front + [shorts[|shorts| - 1]];
      if short in front || "-" + short in t.shorts { ShortReached(t, front, all, short); }
    }
  }

  lemma {:induction false} ShortStaysReached(t: Tables, globals: seq<Declaration>, k: string)
    requires k in t.shorts
    ensures k in GlobalTables(t, globals).shorts
  {
    if globals != [] { ShortStaysReached(t, globals[..|globals| - 1], k); }
  }

  /** A command's short no global takes leads to the first flag that claims it. */
  lemma ShortLeads(flags: seq<Declaration>, globals: seq<Declaration>, short: string)
    requires DistinctGlobals(globals) && short in ShortsOf(Sites(flags, true))
    requires forall g :: g in globals ==> g.short != short
    ensures var t := TablesOf(flags, globals);
      "-" + short in t.shorts && t.shorts["-" + short] == Read(FirstClaiming(Sites(flags, true), short).flag)
  {
    var all, k := Sites(flags, true), "-" + short;
    var named := NameTables(NamesOf(all), all);
    var own := ShortTables(named, ShortsOf(all), all);
    ShortReached(named, ShortsOf(all), all, short);
    ShortStaysReached(own, globals, k);
    NameTablesHold(NamesOf(all), all);
    ShortTablesHold(named, ShortsOf(all), all);
    GlobalTablesHold(own, globals);
    assert k[1..] == short;
    forall g | g in globals ensures !Claimed(g, k, TablesOf(flags, globals).shorts[k]) {
      assert ("-" + g.short)[1..] == g.short;
    }
  }

  /** A short whose long spelling does not agree: the shortest argv with it does not survive. */
  lemma ShortFails(flags: seq<Declaration>, globals: seq<Declaration>, k: string)
    requires Registered(flags, globals) && k in TablesOf(flags, globals).shorts
    requires var f := TablesOf(flags, globals).shorts[k];
      Shadowed(f, globals) || (f.isBool && Minted(f.name, Sites(flags, true)))
    ensures var t := TablesOf(flags, globals); ReadAll(Alone(t, k), t, false, false).Success? && !Kept(Alone(t, k), t)
  {
    TablesWellFormed(flags, globals);
    var t := TablesOf(flags, globals);
    AgreesIff(flags, globals, t.shorts[k]);
    hide TablesOf, Sites, Registered, Agrees, Kept, ReadItem, ReadAll;
    if Kept(Alone(t, k), t) { KeptAgrees(t, k); }
    OneShort(t, k);
    OneItem(Alone(t, k), t);
  }

  /** The short of the last global leads to it. */
  lemma GlobalShortLeads(flags: seq<Declaration>, globals: seq<Declaration>)
    requires globals != [] && globals[|globals| - 1].short != ""
    ensures var g := globals[|globals| - 1]; var t := TablesOf(flags, globals);
      "-" + g.short in t.shorts && t.shorts["-" + g.short] == Read(g)
  {
  }

  /** The names of the two commands are kebab-case. */
  lemma NamesSpelled()
    ensures KebabName("unset-mode") && KebabName("target") && KebabName("mode") && KebabName("level")
    ensures !("no-" <= "unset-mode") && !("no-" <= "target") && !("no-" <= "mode") && !("no-" <= "level")
  {
    var no := "no-";
    assert no[0] == 'n';
    var a := "unset-mode";
    assert a[0] == 'u' && a[1] == 'n' && a[2] == 's' && a[3] == 'e' && a[4] == 't' &&
      a[5] == '-' && a[6] == 'm' && a[7] == 'o' && a[8] == 'd' && a[9] == 'e';
    var b := "target";
    assert b[0] == 't' && b[1] == 'a' && b[2] == 'r' && b[3] == 'g' && b[4] == 'e' && b[5] == 't';
    var c := "mode";
    assert c[0] == 'm' && c[1] == 'o' && c[2] == 'd' && c[3] == 'e';
    var d := "level";
    assert d[0] == 'l' && d[1] == 'e' && d[2] == 'v' && d[3] == 'e' && d[4] == 'l';
  }

  lemma ClearRegistered()
    ensures Registered(ClearInChoice(), []) && GlobalsFirst(ClearInChoice(), [])
  {
    ClearSites();
    NamesSpelled();
    var all := Sites(ClearInChoice(), true);
    hide Sites, KebabName;
    assert ValidFlag(all[0].flag) && ValidFlag(all[1].flag) && ValidFlag(all[2].flag);
    assert NamesShared(all);
    assert UnsetsReserved(all, []);
  }

  lemma ClearMinted()
    ensures var all := Sites(ClearInChoice(), true);
      "u" in ShortsOf(all) && FirstClaiming(all, "u").flag == ClearInChoice()[0] && Minted("unset-mode", all)
  {
    ClearSites();
    var all := Sites(ClearInChoice(), true);
    hide Sites;
    ClaimingIff(all, "u");
    assert all[0] in Claiming(all, "u");
    MintsClear(all, all[2]);
    hide NamesOf, ShortsOf, Named, Claiming;
  }

  /** A nullable flag that is the only one of its name mints its clear. */
  lemma MintsClear(all: seq<Site>, x: Site)
    requires x in all && x.flag.nullable && forall y :: y in all && y.flag.name == x.flag.name ==> y == x
    ensures Minted(UnsetName(x.flag.name), all)
  {
    NamedIff(all, x.flag.name);
    FirstNamed(all, x.flag.name);
  }

  /** The clear's name taken by a boolean flag with a short: -u does not survive. */
  lemma ClearClash()
    ensures Registered(ClearInChoice(), []) && GlobalsFirst(ClearInChoice(), [])
    ensures ReadAll(["-u"], TablesOf(ClearInChoice(), []), false, false).Success?
    ensures !Kept(["-u"], TablesOf(ClearInChoice(), []))
  {
    ClearRegistered();
    ClearMinted();
    hide Sites, TablesOf, Kept, ReadAll, Registered, GlobalsFirst;
    ShortLeads(ClearInChoice(), [], "u");
    assert "-" + "u" == "-u";
    ShortFails(ClearInChoice(), [], "-u");
  }

  /** The short of a flag that a boolean global shadows, with a value: it does not survive. */
  lemma ShadowedFails(flags: seq<Declaration>, globals: seq<Declaration>, short: string, k: string)
    requires Registered(flags, globals) && short in ShortsOf(Sites(flags, true))
    requires (forall g :: g in globals ==> g.short != short)
    requires var f := FirstClaiming(Sites(flags, true), short).flag; !f.isBool && Shadowed(Read(f), globals)
    requires k == "-" + short
    ensures ReadAll([k, ""], TablesOf(flags, globals), false, false).Success?
    ensures !Kept([k, ""], TablesOf(flags, globals))
  {
    hide Sites, ShortsOf, TablesOf, Kept, ReadAll, Registered, Shadowed;
    assert DistinctGlobals(globals) by { RegisteredGlobals(flags, globals); }
    ShortLeads(flags, globals, short);
    ShortFails(flags, globals, k);
  }

  lemma RegisteredGlobals(flags: seq<Declaration>, globals: seq<Declaration>)
    requires Registered(flags, globals)
    ensures DistinctGlobals(globals)
  {
  }

  /** Registration read off the sites. */
  lemma RegisteredBy(flags: seq<Declaration>, globals: seq<Declaration>, all: seq<Site>)
    requires all == Sites(flags, true) && (forall x :: x in all ==> ValidFlag(x.flag))
    requires (forall g :: g in globals ==> ValidFlag(g))
    requires NamesShared(all) && DistinctGlobals(globals) && NoCollision(all, globals) && UnsetsReserved(all, globals)
    ensures Registered(flags, globals) && GlobalsFirst(flags, globals)
  {
  }

  lemma LevelRegistered() returns (all: seq<Site>)
    ensures Registered(LevelInChoice(), LevelGlobal()) && GlobalsFirst(LevelInChoice(), LevelGlobal())
    ensures var sel := LevelInChoice()[0];
      all == Sites(LevelInChoice(), true) == [Site(sel, true), Site(sel.choices[0].flags[0], false)]
  {
    var sel := LevelInChoice()[0];
    OneScoped(sel, sel.choices[0].flags[0]);
    all := Sites(LevelInChoice(), true);
    LevelSites(all);
    hide Sites, ValidFlag, NamesShared, NoCollision, UnsetsReserved;
    RegisteredBy(LevelInChoice(), LevelGlobal(), all);
  }

  lemma LevelSites(all: seq<Site>)
    requires var d := LevelInChoice(); all == [Site(d[0], true), Site(d[0].choices[0].flags[0], false)]
    ensures (forall x :: x in all ==> ValidFlag(x.flag)) && NamesShared(all)
    ensures ValidFlag(LevelGlobal()[0]) && NoCollision(all, LevelGlobal()) && UnsetsReserved(all, LevelGlobal())
  {
    NamesSpelled();
    hide KebabName;
    assert ValidFlag(all[0].flag) && ValidFlag(all[1].flag);
    assert all[0].flag.name[0] == 't' && LevelGlobal()[0].name[0] == 'l';
  }

  /** The only flag with a short claims it. */
  lemma ClaimsLast(all: seq<Site>, short: string, i: nat)
    requires i < |all| && all[i].flag.short == short != "" &&
      forall j :: 0 <= j < |all| && all[j].flag.short == short ==> j == i
    ensures short in ShortsOf(all) && FirstClaiming(all, short) == all[i]
  {
    ClaimingIff(all, short);
    assert all[i] in Claiming(all, short);
    hide ShortsOf, Claiming;
  }

  /** A choice's name taken by a global that is boolean: -l with a value does not survive. */
  lemma LevelClash()
    ensures Registered(LevelInChoice(), LevelGlobal()) && GlobalsFirst(LevelInChoice(), LevelGlobal())
    ensures ReadAll(["-l", ""], TablesOf(LevelInChoice(), LevelGlobal()), false, false).Success?
    ensures !Kept(["-l", ""], TablesOf(LevelInChoice(), LevelGlobal()))
  {
    var all := LevelRegistered();
    ClaimsLast(all, "l", 1);
    LevelShadowed(all[1].flag);
    hide Sites, ShortsOf, TablesOf, Kept, ReadAll, Registered, GlobalsFirst, Shadowed;
    assert "-l" == "-" + "l";
    ShadowedFails(LevelInChoice(), LevelGlobal(), "l", "-l");
  }

  lemma LevelShadowed(f: Declaration)
    requires f.name == "level" && !f.isBool
    ensures Shadowed(Read(f), LevelGlobal())
  {
    assert LevelGlobal()[0] in LevelGlobal();
  }

  // --- Globals registered after the command -------------------------------------------------------

  function LevelAtRoot(): seq<Declaration> {
    [Declaration("level", "l", false, false, false, [])]
  }

  /** A nullable property, and a global named like its clear. */
  function ModeAtRoot(): seq<Declaration> {
    [Declaration("mode", "", false, false, true, [])]
  }

  function UnsetGlobal(): seq<Declaration> {
    [Declaration("unset-mode", "u", true, true, false, [])]
  }

  lemma OneRoot(f: Declaration)
    requires f.choices == []
    ensures Sites([f], true) == [Site(f, true)]
  {
    assert [f][..0] == [];
  }

  lemma RootRegistered(f: Declaration, g: Declaration)
    requires f.choices == [] && ValidFlag(f) && ValidFlag(g)
    ensures Registered([f], [g])
  {
    OneRoot(f);
    hide Sites, ValidFlag;
  }

  /** A root flag's name taken by a later global that is boolean: -l with a value does not survive. */
  lemma LateLevelClash()
    ensures Registered(LevelAtRoot(), LevelGlobal())
    ensures ReadAll(["-l", ""], TablesOf(LevelAtRoot(), LevelGlobal()), false, false).Success?
    ensures !Kept(["-l", ""], TablesOf(LevelAtRoot(), LevelGlobal()))
  {
    LateLevelShort();
    LevelShadowed(LevelAtRoot()[0]);
    hide Sites, ShortsOf, TablesOf, Kept, ReadAll, Registered, Shadowed;
    assert "-l" == "-" + "l";
    ShadowedFails(LevelAtRoot(), LevelGlobal(), "l", "-l");
  }

  lemma LateLevelShort()
    ensures Registered(LevelAtRoot(), LevelGlobal())
    ensures var all := Sites(LevelAtRoot(), true);
      "l" in ShortsOf(all) && FirstClaiming(all, "l").flag == LevelAtRoot()[0]
  {
    var f := LevelAtRoot()[0];
    NamesSpelled();
    OneRoot(f);
    hide KebabName, Sites, Registered;
    RootRegistered(f, LevelGlobal()[0]);
    ClaimsLast([Site(f, true)], "l", 0);
  }

  /** A property's clear taken by a later boolean global with a short: -u does not survive. */
  lemma LateClearClash()
    ensures Registered(ModeAtRoot(), UnsetGlobal())
    ensures ReadAll(["-u"], TablesOf(ModeAtRoot(), UnsetGlobal()), false, false).Success?
    ensures !Kept(["-u"], TablesOf(ModeAtRoot(), UnsetGlobal()))
  {
    var f, g := ModeAtRoot()[0], UnsetGlobal()[0];
    NamesSpelled();
    OneRoot(f);
    RootRegistered(f, g);
    MintsClear([Site(f, true)], Site(f, true));
    assert UnsetName("mode") == "unset-mode" && "-" + "u" == "-u";
    GlobalShortLeads(ModeAtRoot(), UnsetGlobal());
    hide Sites, TablesOf, Kept, ReadAll, Registered, Minted, KebabName;
    ShortFails(ModeAtRoot(), UnsetGlobal(), "-u");
  }
}
