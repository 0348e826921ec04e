/** The Market Radar migration: one radar per user, old lists archived, and the distinct slices of the old
    entries as targets. */
module MarketRadar {
  import opened Sql
  import opened Text

  type Id = nat
  type User = nat

  // ---------- deriving the market product ----------

  /** (value or "").strip().lower() for ASCII text. */
  function Normal(value: Option<string>): string {
    if value.None? then "" else Lower(Strip(value.value))
  }

  datatype Code = BioMethanol | EMethanol | BioEthanol | SyntheticEthanol

  function Derive(name: Option<string>, fuelType: Option<string>, grade: Option<string>): Option<Code> {
    var n, t, g := Normal(name), Normal(fuelType), Normal(grade);
    if n == "bio methanol" || n == "methanol green" then Some(BioMethanol)
    else if n == "e-methanol" then Some(EMethanol)
    else if n == "bio ethanol" || n == "ethanol green" then Some(BioEthanol)
    else if n == "synthetic ethanol" then Some(SyntheticEthanol)
    else if t == "methanol" && (g == "bio" || g == "green") then Some(BioMethanol)
    else if t == "methanol" && (g == "e" || g == "synthetic") then Some(EMethanol)
    else if t == "ethanol" && (g == "bio" || g == "green") then Some(BioEthanol)
    else if t == "ethanol" && g == "synthetic" then Some(SyntheticEthanol)
    else None
  }

  datatype Alcohol = Methanol | Ethanol
  datatype Origin = Bio | Synthetic

  function Spelled(a: Alcohol): string { if a.Methanol? then "methanol" else "ethanol" }

  /** The names of a product of this alcohol and origin. */
  predicate Names(n: string, a: Alcohol, o: Origin) {
    match (a, o)
    case (Methanol, Bio) => n in {"bio methanol", "methanol green"}
    case (Ethanol, Bio) => n in {"bio ethanol", "ethanol green"}
    case (Methanol, Synthetic) => n == "e-methanol"
    case (Ethanol, Synthetic) => n == "synthetic ethanol"
  }

  /** The grades that tell the origin; "e" is one of methanol only. */
  function Grades(a: Alcohol, o: Origin): set<string> {
    match o
    case Bio => {"bio", "green"}
    case Synthetic => if a.Methanol? then {"e", "synthetic"} else {"synthetic"}
  }

  function CodeOf(a: Alcohol, o: Origin): Code {
    match (a, o)
    case (Methanol, Bio) => BioMethanol
    case (Methanol, Synthetic) => EMethanol
    case (Ethanol, Bio) => BioEthanol
    case (Ethanol, Synthetic) => SyntheticEthanol
  }

  lemma NameDecides(name: Option<string>, fuelType: Option<string>, grade: Option<string>, a: Alcohol, o: Origin)
    requires Names(Normal(name), a, o)
    ensures Derive(name, fuelType, grade) == Some(CodeOf(a, o))
    ensures forall b, q :: Names(Normal(name), b, q) ==> a == b && o == q
  {
    hide Normal;
  }

  lemma GradeDecides(name: Option<string>, fuelType: Option<string>, grade: Option<string>, a: Alcohol, o: Origin)
    requires forall b, q :: !Names(Normal(name), b, q)
    ensures Derive(name, fuelType, grade) == Some(CodeOf(a, o))
            <==> Normal(fuelType) == Spelled(a) && Normal(grade) in Grades(a, o)
  {
    hide Normal;
    var n := Normal(name);
    assert !Names(n, Methanol, Bio) && !Names(n, Methanol, Synthetic);
    assert !Names(n, Ethanol, Bio) && !Names(n, Ethanol, Synthetic);
  }

  /** The code is that of the alcohol and origin the name gives or, only when the name gives none, those of
      type and grade; without either there is no code. */
  lemma DeriveIsExact(name: Option<string>, fuelType: Option<string>, grade: Option<string>, a: Alcohol, o: Origin)
    ensures Derive(name, fuelType, grade) == Some(CodeOf(a, o)) <==>
      || Names(Normal(name), a, o)
      || ((forall b, q :: !Names(Normal(name), b, q)) && Normal(fuelType) == Spelled(a) && Normal(grade) in Grades(a, o))
  {
    hide Derive, Names, Grades, Normal;
    if b, q :| Names(Normal(name), b, q) {
      NameDecides(name, fuelType, grade, b, q);
    } else {
      GradeDecides(name, fuelType, grade, a, o);
    }
  }

  lemma NormalIsStable(value: Option<string>)
    ensures Normal(Some(Normal(value))) == Normal(value)
  {
    if value.Some? {
      var core := Strip(value.value);
      StripIsStable(core, Lower(core));
      assert Lower(Lower(core)) == Lower(core);
    }
  }

  /** Case and surrounding blanks never matter. */
  lemma DeriveReadsNormalForms(name: Option<string>, fuelType: Option<string>, grade: Option<string>)
    ensures Derive(Some(Normal(name)), Some(Normal(fuelType)), Some(Normal(grade))) == Derive(name, fuelType, grade)
  {
    NormalIsStable(name);
    NormalIsStable(fuelType);
    NormalIsStable(grade);
    hide Normal;
  }

  // ---------- the tables ----------

  datatype Kind = Custom | RadarDefault | LegacyArchived

  datatype Watchlist = Watchlist(id: Id, user: Option<User>, name: string, kind: Kind)

  datatype Product = Product(name: Option<string>, fuelType: Option<string>, grade: Option<string>)

  datatype Entry = Entry(watchlist: Id, product: Id, deliveryPoint: Option<Id>)

  /** A slice target; its window is always SPOT. */
  datatype Target = Target(watchlist: Id, code: Code, deliveryPoint: Id)

  predicate DistinctIds(lists: seq<Watchlist>) {
    forall i, j | 0 <= i < j < |lists| :: lists[i].id != lists[j].id
  }

  predicate Owns(lists: seq<Watchlist>, u: User) { exists i | 0 <= i < |lists| :: lists[i].user == Some(u) }

  predicate Known(lists: seq<Watchlist>, id: Id) { exists i | 0 <= i < |lists| :: lists[i].id == id }

  function Owner(lists: seq<Watchlist>, id: Id): Option<User> {
    if lists == [] then None
    else if lists[0].id == id then lists[0].user
    else Owner(lists[1..], id)
  }

  lemma {:induction false} OwnerIsLocal(lists: seq<Watchlist>, more: seq<Watchlist>, archived: seq<Watchlist>, id: Id)
    requires Known(lists, id) && |archived| == |lists|
    requires forall i | 0 <= i < |lists| :: archived[i].id == lists[i].id && archived[i].user == lists[i].user
    ensures Owner(archived + more, id) == Owner(lists, id)
  {
    assert (archived + more)[0] == archived[0];
    if lists[0].id != id {
      assert (archived + more)[1..] == archived[1..] + more;
      var i :| 0 <= i < |lists| && lists[i].id == id;
      assert lists[1..][i - 1].id == id;
      OwnerIsLocal(lists[1..], more, archived[1..], id);
    }
  }

  /** What the joined rows need of the tables. */
  predicate Joined(products: map<Id, Product>, entries: seq<Entry>) {
    forall k | 0 <= k < |entries| :: entries[k].product in products
  }

  /** An entry of one of the user's lists asks for this slice. */
  predicate Asks(lists: seq<Watchlist>, products: map<Id, Product>, e: Entry, u: User, code: Code, dp: Id)
    requires e.product in products
  {
    var p := products[e.product];
    Owner(lists, e.watchlist) == Some(u) && e.deliveryPoint == Some(dp)
    && Derive(p.name, p.fuelType, p.grade) == Some(code)
  }

  predicate Asked(lists: seq<Watchlist>, products: map<Id, Product>, entries: seq<Entry>, u: User, code: Code, dp: Id)
    requires Joined(products, entries)
  {
    exists k | 0 <= k < |entries| :: Asks(lists, products, entries[k], u, code, dp)
  }

  lemma NothingAsked(lists: seq<Watchlist>, products: map<Id, Product>, u: User, code: Code, dp: Id)
    ensures !Asked(lists, products, [], u, code, dp)
  {}

  lemma AskedByOneMore(lists: seq<Watchlist>, products: map<Id, Product>, entries: seq<Entry>, k: nat,
                       u: User, code: Code, dp: Id)
    requires Joined(products, entries) && k < |entries|
    ensures Asked(lists, products, entries[..k + 1], u, code, dp)
            <==> Asked(lists, products, entries[..k], u, code, dp) || Asks(lists, products, entries[k], u, code, dp)
  {
    hide Asks;
    if Asks(lists, products, entries[k], u, code, dp) { assert entries[..k + 1][k] == entries[k]; }
    if Asked(lists, products, entries[..k], u, code, dp) {
      var i :| 0 <= i < k && Asks(lists, products, entries[..k][i], u, code, dp);
      assert entries[..k + 1][i] == entries[..k][i];
    }
  }

  class RadarTables {
    const products: map<Id, Product>
    const entries: seq<Entry>
    var watchlists: seq<Watchlist>
    var targets: seq<Target>

    constructor (products: map<Id, Product>, entries: seq<Entry>, watchlists: seq<Watchlist>)
      ensures this.products == products && this.entries == entries && this.watchlists == watchlists && targets == []
    {
      this.products, this.entries, this.watchlists, targets := products, entries, watchlists, [];
    }

    /** Primary and foreign keys of the old tables, with the kind column at its default. */
    ghost predicate Valid()
      reads this
    {
      && DistinctIds(watchlists) && targets == []
      && (forall i | 0 <= i < |watchlists| :: watchlists[i].kind.Custom?)
      && (forall k | 0 <= k < |entries| :: Known(watchlists, entries[k].watchlist) && entries[k].product in products)
    }

    /** SELECT DISTINCT user_id ... WHERE user_id IS NOT NULL */
    method Users() returns (users: seq<User>)
      ensures forall i, j | 0 <= i < j < |users| :: users[i] != users[j]
      ensures forall u :: u in users <==> Owns(watchlists, u)
    {
      users := [];
      var i := 0;
      while i < |watchlists|
        invariant 0 <= i <= |watchlists|
        invariant forall i, j | 0 <= i < j < |users| :: users[i] != users[j]
        invariant forall u :: u in users <==> Owns(watchlists[..i], u)
      {
        var user := watchlists[i].user;
        assert watchlists[..i + 1] == watchlists[..i] + [watchlists[i]];
        forall u: User ensures Owns(watchlists[..i + 1], u) <==> Owns(watchlists[..i], u) || user == Some(u) {
          if Owns(watchlists[..i], u) {
            var k :| 0 <= k < i && watchlists[..i][k].user == Some(u);
            assert watchlists[..i + 1][k].user == Some(u);
          }
          if user == Some(u) { assert watchlists[..i + 1][i].user == Some(u); }
        }
        if user.Some? && user.value !in users { users := users + [user.value]; }
        i := i + 1;
      }
      assert watchlists[..|watchlists|] == watchlists;
    }

    method CreateRadars(users: seq<User>, newId: nat -> Id) returns (radar: map<User, Id>)
      requires forall i, j | 0 <= i < j < |users| :: users[i] != users[j]
      modifies `watchlists
      ensures watchlists == old(watchlists)
                + seq(|users|, i requires 0 <= i < |users| =>
                      Watchlist(newId(i), Some(users[i]), "Market Radar", RadarDefault))
      ensures radar.Keys == AsSet(users)
      ensures forall i | 0 <= i < |users| :: radar[users[i]] == newId(i)
    {
      radar := map[];
      var k := 0;
      while k < |users|
        invariant 0 <= k <= |users|
        invariant watchlists == old(watchlists)
                    + seq(k, i requires 0 <= i < k => Watchlist(newId(i), Some(users[i]), "Market Radar", RadarDefault))
        invariant radar.Keys == AsSet(users[..k])
        invariant forall i | 0 <= i < k :: radar[users[i]] == newId(i)
      {
        radar := radar[users[k] := newId(k)];
        watchlists := watchlists + [Watchlist(newId(k), Some(users[k]), "Market Radar", RadarDefault)];
        k := k + 1;
      }
      assert users[..|users|] == users;
    }

    /** UPDATE ... WHERE id IN (the lists that were there and whose user has a radar) */
    method Archive(legacy: seq<Watchlist>, radar: map<User, Id>)
      modifies `watchlists
      ensures |watchlists| == |old(watchlists)|
      ensures forall i | 0 <= i < |watchlists| :: watchlists[i] == Archived(old(watchlists)[i], legacy, radar)
    {
      var i := 0;
      while i < |watchlists|
        invariant 0 <= i <= |watchlists| == |old(watchlists)|
        invariant forall k | 0 <= k < i :: watchlists[k] == Archived(old(watchlists)[k], legacy, radar)
        invariant forall k | i <= k < |watchlists| :: watchlists[k] == old(watchlists)[k]
      {
        watchlists := watchlists[i := Archived(watchlists[i], legacy, radar)];
        i := i + 1;
      }
    }

    /** The insertion loop over the joined entries, with the set of keys already inserted. */
    method FillTargets(radar: map<User, Id>)
      requires targets == [] && Joined(products, entries)
      requires forall u, v | u in radar && v in radar :: radar[u] == radar[v] ==> u == v
      modifies `targets
      ensures forall i, j | 0 <= i < j < |targets| :: targets[i] != targets[j]
      ensures forall u: User, code: Code, dp: Id | u in radar ::
                Target(radar[u], code, dp) in targets <==> Asked(watchlists, products, entries, u, code, dp)
      ensures forall t | t in targets :: t.watchlist in radar.Values
    {
      hide Owner, Derive, Asked;
      assert entries[..0] == [];
      var deduped: set<(User, Code, Id)> := {};
      forall u: User, code: Code, dp: Id ensures !Asked(watchlists, products, entries[..0], u, code, dp) {
        NothingAsked(watchlists, products, u, code, dp);
      }
      var k := 0;
      while k < |entries|
        invariant 0 <= k <= |entries|
        invariant forall i, j | 0 <= i < j < |targets| :: targets[i] != targets[j]
        invariant forall u: User, code: Code, dp: Id ::
          (u, code, dp) in deduped <==> u in radar && Asked(watchlists, products, entries[..k], u, code, dp)
        invariant forall u: User, code: Code, dp: Id | u in radar ::
          (u, code, dp) in deduped <==> Target(radar[u], code, dp) in targets
        invariant forall t | t in targets :: t.watchlist in radar.Values
      {
        var e := entries[k];
        var p := products[e.product];
        var user, code := Owner(watchlists, e.watchlist), Derive(p.name, p.fuelType, p.grade);
        forall u: User, c: Code, dp: Id
          ensures Asked(watchlists, products, entries[..k + 1], u, c, dp) <==>
                    Asked(watchlists, products, entries[..k], u, c, dp) || Asks(watchlists, products, e, u, c, dp)
        { AskedByOneMore(watchlists, products, entries, k, u, c, dp); }
        if e.deliveryPoint.Some? && code.Some? && user.Some? && user.value in radar {
          var key := (user.value, code.value, e.deliveryPoint.value);
          if key !in deduped {
            deduped := deduped + {key};
            targets := targets + [Target(radar[key.0], key.1, key.2)];
          }
        }
        k := k + 1;
      }
      assert entries[..|entries|] == entries;
    }

    /** The lists: a radar for each owner, then the old ones archived. */
    method BuildLists(newId: nat -> Id) returns (radar: map<User, Id>)
      requires Valid() && Unused(watchlists, newId)
      modifies `watchlists
      ensures RadarsBuilt(old(watchlists), watchlists, radar)
      ensures DistinctIds(watchlists)
    {
      var legacy := watchlists;
      var users := Users();
      radar := CreateRadars(users, newId);
      ghost var grown := watchlists;
      Archive(legacy, radar);
      hide *;
      ListsAreBuilt(legacy, users, newId, radar, grown, watchlists);
    }

    /** The data part of the upgrade: one radar for each user that owned a list and none otherwise, the older
        lists archived, and as targets exactly the slices the old entries asked for, each once. */
    method Upgrade(newId: nat -> Id) returns (radar: map<User, Id>)
      requires Valid() && Unused(watchlists, newId)
      modifies this
      ensures RadarsBuilt(old(watchlists), watchlists, radar) && DistinctIds(watchlists)
      ensures forall i, j | 0 <= i < j < |targets| :: targets[i] != targets[j]
      ensures forall t | t in targets :: t.watchlist in radar.Values
      ensures Joined(products, entries)
      ensures forall u: User, code: Code, dp: Id | u in radar ::
                Target(radar[u], code, dp) in targets <==> Asked(old(watchlists), products, entries, u, code, dp)
    {
      var legacy := watchlists;
      radar := BuildLists(newId);
      RadarsDiffer(legacy, watchlists, radar);
      FillTargets(radar);
      forall u: User, code: Code, dp: Id
        ensures Asked(watchlists, products, entries, u, code, dp) <==> Asked(legacy, products, entries, u, code, dp)
      {
        AskedOfLegacy(legacy, watchlists, products, entries, radar, u, code, dp);
      }
    }
  }

  /** Generated identifiers are distinct and new. */
  ghost predicate Unused(lists: seq<Watchlist>, newId: nat -> Id) {
    && (forall i, j :: newId(i) == newId(j) ==> i == j)
    && (forall i :: !Known(lists, newId(i)))
  }

  /** Each owner has exactly one RADAR_DEFAULT list, the one recorded for them; the older lists come first and
      keep everything but their kind, archived unless nobody owns them. */
  ghost predicate RadarsBuilt(legacy: seq<Watchlist>, lists: seq<Watchlist>, radar: map<User, Id>) {
    && |lists| == |legacy| + |radar|
    && OldListsKept(legacy, lists)
    && NewListsAreRadars(lists, |legacy|, radar)
    && (forall u | u in radar :: HasRadar(lists, |legacy|, radar, u))
    && (forall u :: u in radar <==> Owns(legacy, u))
  }

  predicate OldListsKept(legacy: seq<Watchlist>, lists: seq<Watchlist>) {
    && |legacy| <= |lists|
    && forall i | 0 <= i < |legacy| ::
         lists[i] == legacy[i].(kind := if legacy[i].user.Some? then LegacyArchived else Custom)
  }

  predicate IsRadar(w: Watchlist, radar: map<User, Id>) {
    && w.user.Some? && w.user.value in radar
    && w == Watchlist(radar[w.user.value], w.user, "Market Radar", RadarDefault)
  }

  predicate NewListsAreRadars(lists: seq<Watchlist>, n: nat, radar: map<User, Id>) {
    && (forall i | n <= i < |lists| :: IsRadar(lists[i], radar))
    && (forall i, j | n <= i < j < |lists| :: lists[i].user != lists[j].user)
  }

  predicate HasRadar(lists: seq<Watchlist>, n: nat, radar: map<User, Id>, u: User)
    requires u in radar
  {
    exists i | n <= i < |lists| :: lists[i] == Watchlist(radar[u], Some(u), "Market Radar", RadarDefault)
  }

  lemma RadarsDiffer(legacy: seq<Watchlist>, lists: seq<Watchlist>, radar: map<User, Id>)
    requires RadarsBuilt(legacy, lists, radar) && DistinctIds(lists)
    ensures forall u, v | u in radar && v in radar :: radar[u] == radar[v] ==> u == v
  {
    hide OldListsKept, NewListsAreRadars, Owns;
    forall u, v | u in radar && v in radar && radar[u] == radar[v] ensures u == v {
      assert HasRadar(lists, |legacy|, radar, u) && HasRadar(lists, |legacy|, radar, v);
      var i :| |legacy| <= i < |lists| && lists[i] == Watchlist(radar[u], Some(u), "Market Radar", RadarDefault);
      var j :| |legacy| <= j < |lists| && lists[j] == Watchlist(radar[v], Some(v), "Market Radar", RadarDefault);
      assert lists[i].id == lists[j].id;
    }
  }

  lemma AskedOfLegacy(legacy: seq<Watchlist>, lists: seq<Watchlist>, products: map<Id, Product>, entries: seq<Entry>,
                      radar: map<User, Id>, u: User, code: Code, dp: Id)
    requires RadarsBuilt(legacy, lists, radar) && Joined(products, entries)
    requires forall k | 0 <= k < |entries| :: Known(legacy, entries[k].watchlist)
    ensures Asked(lists, products, entries, u, code, dp) <==> Asked(legacy, products, entries, u, code, dp)
  {
    hide Derive;
    forall k | 0 <= k < |entries| ensures Owner(lists, entries[k].watchlist) == Owner(legacy, entries[k].watchlist) {
      assert lists == lists[..|legacy|] + lists[|legacy|..];
      hide Asks, Asked, Owner;
      OwnerIsLocal(legacy, lists[|legacy|..], lists[..|legacy|], entries[k].watchlist);
    }
    hide Owner, RadarsBuilt, Known;
    forall k | 0 <= k < |entries|
      ensures Asks(lists, products, entries[k], u, code, dp) <==> Asks(legacy, products, entries[k], u, code, dp)
    {}
    hide Asks;
  }

  lemma ListsAreBuilt(legacy: seq<Watchlist>, users: seq<User>, newId: nat -> Id, radar: map<User, Id>,
                      grown: seq<Watchlist>, lists: seq<Watchlist>)
    requires DistinctIds(legacy) && Unused(legacy, newId)
    requires forall i | 0 <= i < |legacy| :: legacy[i].kind.Custom?
    requires forall i, j | 0 <= i < j < |users| :: users[i] != users[j]
    requires forall u :: u in users <==> Owns(legacy, u)
    requires grown == legacy
               + seq(|users|, i requires 0 <= i < |users| =>
                      Watchlist(newId(i), Some(users[i]), "Market Radar", RadarDefault))
    requires radar.Keys == AsSet(users)
    requires forall i | 0 <= i < |users| :: radar[users[i]] == newId(i)
    requires |lists| == |grown| && forall i | 0 <= i < |lists| :: lists[i] == Archived(grown[i], legacy, radar)
    ensures RadarsBuilt(legacy, lists, radar) && DistinctIds(lists)
  {
    var n := |legacy|;
    hide OldListsKept, NewListsAreRadars, IsRadar, HasRadar, Owns, Known, DistinctIds, Unused;
    UsersCounted(users);
    assert OldListsKept(legacy, lists) by { OldListsAreKept(legacy, users, radar, grown, lists); }
    forall i | n <= i < |lists|
      ensures lists[i] == Watchlist(newId(i - n), Some(users[i - n]), "Market Radar", RadarDefault)
    {
      assert grown[i] == Watchlist(newId(i - n), Some(users[i - n]), "Market Radar", RadarDefault);
      NewListsStay(grown[i], legacy, newId, i - n, radar);
    }
    NewListsAreNew(users, newId, radar, n, lists);
    IdsStayDistinct(legacy, newId, lists);
  }

  lemma NewListsStay(w: Watchlist, legacy: seq<Watchlist>, newId: nat -> Id, k: nat, radar: map<User, Id>)
    requires Unused(legacy, newId) && w.id == newId(k)
    ensures Archived(w, legacy, radar) == w
  {}

  lemma NewListsAreNew(users: seq<User>, newId: nat -> Id, radar: map<User, Id>, n: nat, lists: seq<Watchlist>)
    requires forall i, j | 0 <= i < j < |users| :: users[i] != users[j]
    requires radar.Keys == AsSet(users)
    requires forall i | 0 <= i < |users| :: radar[users[i]] == newId(i)
    requires |lists| == n + |users|
    requires forall i | n <= i < |lists| ::
      lists[i] == Watchlist(newId(i - n), Some(users[i - n]), "Market Radar", RadarDefault)
    ensures NewListsAreRadars(lists, n, radar)
    ensures forall u | u in radar :: HasRadar(lists, n, radar, u)
  {
    forall u | u in radar ensures HasRadar(lists, n, radar, u) {
      var k :| 0 <= k < |users| && users[k] == u;
      assert lists[n + k] == Watchlist(radar[u], Some(u), "Market Radar", RadarDefault);
    }
  }

  lemma OldListsAreKept(legacy: seq<Watchlist>, users: seq<User>, radar: map<User, Id>,
                        grown: seq<Watchlist>, lists: seq<Watchlist>)
    requires forall i | 0 <= i < |legacy| :: legacy[i].kind.Custom?
    requires forall u :: u in users <==> Owns(legacy, u)
    requires radar.Keys == AsSet(users)
    requires legacy <= grown
    requires |lists| == |grown| && forall i | 0 <= i < |lists| :: lists[i] == Archived(grown[i], legacy, radar)
    ensures OldListsKept(legacy, lists)
  {
    forall i | 0 <= i < |legacy|
      ensures lists[i] == legacy[i].(kind := if legacy[i].user.Some? then LegacyArchived else Custom)
    {
      assert grown[i] == legacy[i];
      assert legacy[i].user.Some? ==> Owns(legacy, legacy[i].user.value);
      assert Known(legacy, legacy[i].id);
    }
  }

  lemma IdsStayDistinct(legacy: seq<Watchlist>, newId: nat -> Id, lists: seq<Watchlist>)
    requires DistinctIds(legacy) && Unused(legacy, newId) && OldListsKept(legacy, lists)
    requires forall i | |legacy| <= i < |lists| :: lists[i].id == newId(i - |legacy|)
    ensures DistinctIds(lists)
  {
    forall i, j | 0 <= i < j < |lists| ensures lists[i].id != lists[j].id {
      if i < |legacy| {
        assert lists[i].id == legacy[i].id && Known(legacy, legacy[i].id);
      }
    }
  }

  function Archived(w: Watchlist, legacy: seq<Watchlist>, radar: map<User, Id>): Watchlist {
    if Known(legacy, w.id) && w.user.Some? && w.user.value in radar then w.(kind := LegacyArchived) else w
  }

  function AsSet(users: seq<User>): set<User> { set u | u in users }

  lemma {:induction false} UsersCounted(users: seq<User>)
    requires forall i, j | 0 <= i < j < |users| :: users[i] != users[j]
    ensures |AsSet(users)| == |users|
  {
    if users != [] {
      var before, last := users[..|users| - 1], users[|users| - 1];
      UsersCounted(before);
      assert users == before + [last];
      assert AsSet(users) == AsSet(before) + {last};
    }
  }
}
