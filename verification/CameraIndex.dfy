/** The camera catalogue: index lookups give what a scan of all cameras would. */
module CameraIndex {
  import opened Base

  datatype Camera = Camera(id: string, brand: string, model: string, aliases: seq<string>)

  datatype Match = Exact(camera: Camera) | Ambiguous | Missing

  const SEPARATOR: char := '\U{1f}'

  type Normalizer = string -> string

  // Normalised text holds letters and digits only, so never the separator.
  ghost predicate Clean(norm: Normalizer) { forall s: string :: SEPARATOR !in norm(s) }

  function Names(c: Camera): (r: seq<string>) { [c.model] + c.aliases }

  function BrandModelKey(norm: Normalizer, brand: string, model: string): (r: string) {
    norm(brand) + [SEPARATOR] + norm(model)
  }

  /** Equal combined keys mean equal brands and equal models. */
  lemma {:induction false} KeyInjective(norm: Normalizer, b: string, m: string, c: string, n: string)
    requires Clean(norm)
    ensures BrandModelKey(norm, b, m) == BrandModelKey(norm, c, n) <==> norm(b) == norm(c) && norm(m) == norm(n)
  {
    if BrandModelKey(norm, b, m) == BrandModelKey(norm, c, n) {
      SplitUnique(norm(b), norm(m), norm(c), norm(n));
    }
  }

  lemma {:induction false} SplitUnique(a: string, b: string, c: string, d: string)
    requires a + [SEPARATOR] + b == c + [SEPARATOR] + d && SEPARATOR !in a && SEPARATOR !in c
    ensures a == c && b == d
  {
    var x, y := a + [SEPARATOR] + b, c + [SEPARATOR] + d;
    assert x[|a|] == SEPARATOR && y[|c|] == SEPARATOR;
    assert forall k :: 0 <= k < |a| ==> x[k] == a[k] && x[k] != SEPARATOR;
    assert forall k :: 0 <= k < |c| ==> y[k] == c[k] && y[k] != SEPARATOR;
    assert a == x[..|a|] && c == y[..|c|] && b == x[|a| + 1..] && d == y[|c| + 1..];
  }

  // ---- The scan --------------------------------------------------------------------------------

  // The camera goes by this model, as its own name or an alias.
  ghost predicate Called(norm: Normalizer, c: Camera, model: string) {
    && norm(model) != ""
    && (norm(c.model) == norm(model) || exists alias :: alias in c.aliases && norm(alias) == norm(model))
  }

  lemma CalledByName(norm: Normalizer, c: Camera, model: string)
    ensures Called(norm, c, model) <==>
            norm(model) != "" && exists k :: 0 <= k < |Names(c)| && norm(Names(c)[k]) == norm(model)
  {
    if k :| 0 <= k < |Names(c)| && norm(Names(c)[k]) == norm(model) {
      if k > 0 { assert Names(c)[k] == c.aliases[k - 1]; }
    }
    if norm(c.model) == norm(model) { assert Names(c)[0] == c.model; }
    if alias :| alias in c.aliases && norm(alias) == norm(model) {
      var k :| 0 <= k < |c.aliases| && c.aliases[k] == alias;
      assert Names(c)[k + 1] == alias;
    }
  }

  ghost function ByModel(norm: Normalizer, cameras: seq<Camera>, model: string): (r: set<nat>) {
    set i: nat | i < |cameras| && Called(norm, cameras[i], model)
  }

  ghost function ByBrandModel(norm: Normalizer, cameras: seq<Camera>, brand: string, model: string): (r: set<nat>) {
    set i: nat | i < |cameras| && norm(cameras[i].brand) == norm(brand) && Called(norm, cameras[i], model)
  }

  // One candidate is exact, several are ambiguous.
  ghost predicate Decides(cameras: seq<Camera>, s: set<nat>, r: Match) {
    match r
    case Exact(c) => exists i :: i < |cameras| && s == {i} && c == cameras[i]
    case Ambiguous => |s| >= 2
    case Missing => s == {}
  }

  ghost predicate ScanMatches(norm: Normalizer, cameras: seq<Camera>, brand: string, model: string, r: Match) {
    var both := ByBrandModel(norm, cameras, brand, model);
    Decides(cameras, if both != {} then both else ByModel(norm, cameras, model), r)
  }

  // ---- The indexes -----------------------------------------------------------------------------

  type Index = map<string, seq<nat>>

  ghost predicate Distinct(s: seq<nat>) { forall i, j :: 0 <= i < j < |s| ==> s[i] != s[j] }

  // The index holds exactly these pairs of key and camera, each once.
  ghost predicate Holds(index: Index, pairs: set<(string, nat)>) {
    && (forall key :: key in index ==> index[key] != [] && Distinct(index[key]))
    && (forall key, i :: (key, i) in pairs <==> key in index && i in index[key])
  }

  method InsertIndex(index: Index, key: string, camera: nat, ghost pairs: set<(string, nat)>) returns (r: Index)
    requires Holds(index, pairs)
    ensures Holds(r, pairs + {(key, camera)})
  {
    var candidates := if key in index then index[key] else [];
    if camera !in candidates {
      candidates := candidates + [camera];
    }
    r := index[key := candidates];
  }

  // The keys camera `c` has from its first names.
  ghost predicate ModelKey(norm: Normalizer, c: Camera, upTo: nat, key: string)
    requires upTo <= |Names(c)|
  {
    exists k :: 0 <= k < upTo && norm(Names(c)[k]) != "" && key == norm(Names(c)[k])
  }

  ghost predicate CombinedKey(norm: Normalizer, c: Camera, upTo: nat, key: string)
    requires upTo <= |Names(c)|
  {
    exists k :: 0 <= k < upTo && norm(Names(c)[k]) != "" && key == BrandModelKey(norm, c.brand, Names(c)[k])
  }

  // Pairs from all names of the first `n` cameras, and some names of the next.
  ghost predicate Pairs(norm: Normalizer, cameras: seq<Camera>, n: nat, upTo: nat, models: set<(string, nat)>,
                        combined: set<(string, nat)>)
    requires n <= |cameras| && (n < |cameras| ==> upTo <= |Names(cameras[n])|)
  {
    forall key: string, i: nat ::
      && ((key, i) in models <==>
          i < |cameras| && i <= n && ModelKey(norm, cameras[i], if i < n then |Names(cameras[i])| else upTo, key))
      && ((key, i) in combined <==>
          i < |cameras| && i <= n && CombinedKey(norm, cameras[i], if i < n then |Names(cameras[i])| else upTo, key))
  }

  // All names of a camera are done, so the next camera is next.
  lemma {:induction false} NextCamera(norm: Normalizer, cameras: seq<Camera>, n: nat, models: set<(string, nat)>,
                                      combined: set<(string, nat)>)
    requires n < |cameras| && Pairs(norm, cameras, n, |Names(cameras[n])|, models, combined)
    ensures Pairs(norm, cameras, n + 1, 0, models, combined)
  {
  }

  lemma KeyStep(norm: Normalizer, c: Camera, k: nat, key: string)
    requires k < |Names(c)|
    ensures var name := Names(c)[k];
            && (ModelKey(norm, c, k + 1, key) <==> ModelKey(norm, c, k, key) || (norm(name) != "" && key == norm(name)))
            && (CombinedKey(norm, c, k + 1, key) <==>
                CombinedKey(norm, c, k, key) || (norm(name) != "" && key == BrandModelKey(norm, c.brand, name)))
  {
  }

  lemma {:induction false} NextName(norm: Normalizer, cameras: seq<Camera>, n: nat, k: nat, models: set<(string, nat)>,
                                    combined: set<(string, nat)>)
    requires n < |cameras| && k < |Names(cameras[n])| && Pairs(norm, cameras, n, k, models, combined)
    ensures var name := Names(cameras[n])[k];
            if norm(name) == "" then Pairs(norm, cameras, n, k + 1, models, combined)
            else Pairs(norm, cameras, n, k + 1, models + {(norm(name), n)},
                       combined + {(BrandModelKey(norm, cameras[n].brand, name), n)})
  {
    hide ModelKey, CombinedKey, BrandModelKey;
    forall key ensures var name := Names(cameras[n])[k];
        && (ModelKey(norm, cameras[n], k + 1, key) <==>
            ModelKey(norm, cameras[n], k, key) || (norm(name) != "" && key == norm(name)))
        && (CombinedKey(norm, cameras[n], k + 1, key) <==>
              CombinedKey(norm, cameras[n], k, key) ||
                (norm(name) != "" && key == BrandModelKey(norm, cameras[n].brand, name)))
    {
      KeyStep(norm, cameras[n], k, key);
    }
  }

  ghost predicate DistinctIds(cameras: seq<Camera>) {
    forall i, j :: 0 <= i < j < |cameras| ==> cameras[i].id != cameras[j].id
  }

  datatype Database = Database(cameras: seq<Camera>, byId: map<string, nat>, byBrandModel: Index, byModel: Index)

  ghost predicate Indexed(norm: Normalizer, d: Database, n: nat, models: set<(string, nat)>,
                          combined: set<(string, nat)>) {
    && n <= |d.cameras| && Holds(d.byModel, models) && Holds(d.byBrandModel, combined)
    && Pairs(norm, d.cameras, n, 0, models, combined)
    && (forall id :: id in d.byId <==> exists i :: 0 <= i < n && d.cameras[i].id == id)
    && (forall id :: id in d.byId ==> d.byId[id] < n && d.cameras[d.byId[id]].id == id)
  }

  // Index the names of camera `n`.
  method IndexNames(norm: Normalizer, d: Database, n: nat, ghost m0: set<(string, nat)>, ghost c0: set<(string, nat)>)
    returns (byModel: Index, byBrandModel: Index, ghost models: set<(string, nat)>, ghost combined: set<(string, nat)>)
    requires n < |d.cameras| && Holds(d.byModel, m0) && Holds(d.byBrandModel, c0) &&
             Pairs(norm, d.cameras, n, 0, m0, c0)
    ensures Holds(byModel, models) && Holds(byBrandModel, combined) &&
            Pairs(norm, d.cameras, n + 1, 0, models, combined)
  {
    hide Holds, Pairs;
    byModel, byBrandModel, models, combined := d.byModel, d.byBrandModel, m0, c0;
    var c := d.cameras[n];
    for k := 0 to |Names(c)|
      invariant Holds(byModel, models) && Holds(byBrandModel, combined) &&
                Pairs(norm, d.cameras, n, k, models, combined)
    {
      NextName(norm, d.cameras, n, k, models, combined);
      var modelKey := norm(Names(c)[k]);
      if modelKey == "" {
        continue;
      }
      var key := BrandModelKey(norm, c.brand, Names(c)[k]);
      byBrandModel := InsertIndex(byBrandModel, key, n, combined);
      byModel := InsertIndex(byModel, modelKey, n, models);
      models, combined := models + {(modelKey, n)}, combined + {(key, n)};
    }
    NextCamera(norm, d.cameras, n, models, combined);
  }

  /** Indexing succeeds exactly when no identity is used twice. */
  method BuildIndexes(norm: Normalizer, cameras: seq<Camera>)
    returns (r: Result<Database, string>, ghost models: set<(string, nat)>, ghost combined: set<(string, nat)>)
    ensures r.Ok? <==> DistinctIds(cameras)
    ensures r.Ok? ==> r.value.cameras == cameras && Indexed(norm, r.value, |cameras|, models, combined)
  {
    hide Holds, Pairs;
    var d := Database(cameras, map[], map[], map[]);
    models, combined := {}, {};
    NothingIndexed(norm, cameras);
    for n := 0 to |cameras|
      invariant d.cameras == cameras && Indexed(norm, d, n, models, combined)
      invariant DistinctIds(cameras[..n])
    {
      if cameras[n].id in d.byId {
        var i :| 0 <= i < n && cameras[i].id == cameras[n].id;
        return Err(cameras[n].id), {}, {};
      }
      var byModel, byBrandModel, m, c := IndexNames(norm, d, n, models, combined);
      models, combined := m, c;
      d := Database(cameras, d.byId[cameras[n].id := n], byBrandModel, byModel);
    }
    assert cameras[..|cameras|] == cameras;
    r := Ok(d);
  }

  lemma NothingIndexed(norm: Normalizer, cameras: seq<Camera>)
    ensures Holds(map[], {}) && Pairs(norm, cameras, 0, 0, {}, {})
  {
  }

  method MatchIndexes(d: Database, indexes: seq<nat>, ghost s: set<nat>) returns (r: Match)
    requires Distinct(indexes) && (forall i :: i in indexes <==> i in s) && forall i :: i in indexes ==> i < |d.cameras|
    ensures Decides(d.cameras, s, r)
  {
    if |indexes| == 1 {
      assert indexes[0] in indexes;
      assert s == {indexes[0]};
      r := Exact(d.cameras[indexes[0]]);
    } else if |indexes| == 0 {
      r := Missing;
    } else {
      assert indexes[0] in s && indexes[1] in s && indexes[0] != indexes[1];
      TwoMembers(s, indexes[0], indexes[1]);
      r := Ambiguous;
    }
  }

  lemma TwoMembers(s: set<nat>, a: nat, b: nat)
    requires a in s && b in s && a != b
    ensures |s| >= 2
  {
    var rest := s - {a};
    assert |rest| == |s| - 1 && |rest - {b}| == |rest| - 1;
  }

  lemma {:induction false} CombinedIsScan(norm: Normalizer, c: Camera, brand: string, model: string)
    requires Clean(norm)
    ensures CombinedKey(norm, c, |Names(c)|, BrandModelKey(norm, brand, model)) <==>
            norm(c.brand) == norm(brand) && Called(norm, c, model)
  {
    hide Names, Called;
    CalledByName(norm, c, model);
    forall k | 0 <= k < |Names(c)|
      ensures BrandModelKey(norm, brand, model) == BrandModelKey(norm, c.brand, Names(c)[k]) <==>
              norm(brand) == norm(c.brand) && norm(model) == norm(Names(c)[k])
    {
      KeyInjective(norm, brand, model, c.brand, Names(c)[k]);
    }
  }

  // What the indexes hold under the keys of a query is what the scan finds.
  ghost predicate Finds(index: Index, key: string, s: set<nat>) {
    if key in index then forall i: nat :: i in index[key] <==> i in s else s == {}
  }

  lemma {:induction false} IndexIsScan(norm: Normalizer, d: Database, models: set<(string, nat)>,
                                       combined: set<(string, nat)>,
                                       brand: string, model: string)
    requires Clean(norm) && Indexed(norm, d, |d.cameras|, models, combined)
    ensures norm(model) != "" ==> Finds(d.byModel, norm(model), ByModel(norm, d.cameras, model))
    ensures Finds(d.byBrandModel, BrandModelKey(norm, brand, model), ByBrandModel(norm, d.cameras, brand, model))
  {
    hide CombinedKey, BrandModelKey, Clean, Names, Called;
    var key := BrandModelKey(norm, brand, model);
    forall i: nat | i < |d.cameras|
      ensures CombinedKey(norm, d.cameras[i], |Names(d.cameras[i])|, key) <==>
              norm(d.cameras[i].brand) == norm(brand) && Called(norm, d.cameras[i], model)
    {
      CombinedIsScan(norm, d.cameras[i], brand, model);
    }
    forall i: nat | i < |d.cameras|
      ensures var c := d.cameras[i];
              norm(model) != "" ==> (ModelKey(norm, c, |Names(c)|, norm(model)) <==> Called(norm, c, model))
    {
      CalledByName(norm, d.cameras[i], model);
    }
    forall i: nat ensures (key, i) in combined <==> i in ByBrandModel(norm, d.cameras, brand, model) {
    }
    forall i: nat ensures norm(model) != "" ==> ((norm(model), i) in models <==> i in ByModel(norm, d.cameras, model)) {
    }
  }

  /** The lookup gives exactly what counting the cameras would. */
  method MatchCamera(norm: Normalizer, d: Database, ghost models: set<(string, nat)>,
                     ghost combined: set<(string, nat)>,
                     brand: string, model: string)
    returns (r: Match)
    requires Clean(norm) && Indexed(norm, d, |d.cameras|, models, combined)
    ensures ScanMatches(norm, d.cameras, brand, model, r)
  {
    IndexIsScan(norm, d, models, combined, brand, model);
    var brandModel := BrandModelKey(norm, brand, model);
    if brandModel in d.byBrandModel {
      assert d.byBrandModel[brandModel][0] in d.byBrandModel[brandModel];
      r := MatchIndexes(d, d.byBrandModel[brandModel], ByBrandModel(norm, d.cameras, brand, model));
      return;
    }
    var key := norm(model);
    if key == "" {
      return Missing;
    }
    if key in d.byModel {
      r := MatchIndexes(d, d.byModel[key], ByModel(norm, d.cameras, model));
    } else {
      r := Missing;
    }
  }

  /** A scan has one outcome. */
  lemma ScanDecides(norm: Normalizer, cameras: seq<Camera>, brand: string, model: string, r: Match, q: Match)
    requires ScanMatches(norm, cameras, brand, model, r) && ScanMatches(norm, cameras, brand, model, q)
    ensures r == q
  {
  }
}
