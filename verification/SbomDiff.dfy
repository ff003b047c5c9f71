/**
 Comparing two CycloneDX documents (reporting/sbom_diff.py), and what the comparison says of two
 documents exported from inventories (reporting/cyclonedx.py).
 */
module SbomDiff {
  import opened Options
  import opened Order
  import opened Purl
  import opened Strings = Text

  /** A parsed JSON value; a number is its Python text. */
  datatype Json =
    | Null
    | Bool(b: bool)
    | Number(text: string, zero: bool)
    | Text(s: string)
    | List(items: seq<Json>)
    | Object(fields: map<string, Json>)

  predicate Truthy(j: Json) {
    match j
    case Null => false
    case Bool(b) => b
    case Number(_, zero) => !zero
    case Text(s) => s != ""
    case List(items) => items != []
    case Object(fields) => fields != map[]
  }

  /** `str(x)`; `repr` is Python's text of lists and objects. */
  function Str(j: Json, repr: Json -> string): string {
    match j
    case Null => "None"
    case Bool(b) => if b then "True" else "False"
    case Number(text, _) => text
    case Text(s) => s
    case _ => repr(j)
  }

  datatype Error =
    | NotCycloneDx
    | ComponentsNotAList
    | ComponentNotAnObject(index: nat)
    | NeitherPurlNorName
    | LicensesNotIterable

  datatype Result<+T> = Ok(value: T) | Err(error: Error)

  // ----- identity

  function Field(c: map<string, Json>, key: string, absent: Json): Json {
    if key in c then c[key] else absent
  }

  /** `s.split(c, 1)[0]`. */
  function Before(s: string, c: char): string {
    s[..IndexOf(s, c)]
  }

  predicate IsPurl(j: Json) {
    j.Text? && |j.s| >= 4 && j.s[..4] == "pkg:"
  }

  /** The purl without version, qualifiers and subpath, and the version it carries. */
  function SplitPurl(purl: string): (string, string) {
    var base := Before(Before(purl, '#'), '?');
    var slash := LastIndexOf(base, '/');
    var tail := base[slash + 1..];
    var at := IndexOf(tail, '@');
    var segment := tail[..at];
    var version := if at < |tail| then tail[at + 1..] else "";
    (if slash > 0 then base[..slash] + "/" + segment else segment, version)
  }

  /** `identity`: the key and the version of one component. */
  function Identity(c: map<string, Json>, repr: Json -> string): Result<(string, string)> {
    var name := Strip(Str(Field(c, "name", Text("")), repr));
    var stated := Field(c, "version", Null);
    var version := Strip(if Truthy(stated) then Str(stated, repr) else "");
    var purl := Field(c, "purl", Null);
    if IsPurl(purl) then
      var split := SplitPurl(purl.s);
      Ok((split.0, if version != "" then version else split.1))
    else
      var group := Strip(Str(Field(c, "group", Text("")), repr));
      if name == "" then Err(NeitherPurlNorName)
      else Ok((if group != "" then "name:" + group + "/" + name else "name:" + name, version))
  }

  // ----- groups

  datatype Group = Group(name: string, versions: set<string>, licences: set<string>)

  function LicenceOf(entry: Json): set<string> {
    if !entry.Object? then {}
    else
      var expression, licence := Field(entry.fields, "expression", Null), Field(entry.fields, "license", Null);
      var id := if licence.Object? then Field(licence.fields, "id", Null) else Null;
      var value := if Truthy(id) then id else if licence.Object? then Field(licence.fields, "name", Null) else Null;
      (if expression.Text? then {Strip(expression.s)} else {}) + (if value.Text? then {Strip(value.s)} else {})
  }

  function LicencesOf(entries: seq<Json>): set<string> {
    if entries == [] then {} else LicencesOf(entries[..|entries| - 1]) + LicenceOf(entries[|entries| - 1])
  }

  /**
   `_licences`, over `component.get("licenses") or []`: a true number or boolean cannot be iterated,
   the characters of a text and the keys of an object are no licence entries.
   */
  function Licences(c: map<string, Json>): Result<set<string>> {
    var entries := Field(c, "licenses", Null);
    if Truthy(entries) && (entries.Number? || entries.Bool?) then Err(LicensesNotIterable)
    else Ok(if entries.List? then LicencesOf(entries.items) else {})
  }

  type Groups = map<string, Group>

  function Grouped(groups: Groups, key: string, version: string, name: string, licences: set<string>): Groups {
    var group := if key in groups then groups[key] else Group(if name != "" then name else key, {}, {});
    groups[key := group.(versions := group.versions + {version}, licences := group.licences + licences)]
  }

  function AddComponent(groups: Groups, c: map<string, Json>, repr: Json -> string): Result<Groups> {
    match Identity(c, repr)
    case Err(e) => Err(e)
    case Ok(id) =>
      match Licences(c)
      case Err(e) => Err(e)
      case Ok(licences) => Ok(Grouped(groups, id.0, id.1, Str(Field(c, "name", Text("")), repr), licences))
  }

  function GroupAll(components: seq<Json>, repr: Json -> string): Result<Groups> {
    if components == [] then Ok(map[])
    else
      var n := |components| - 1;
      match GroupAll(components[..n], repr)
      case Err(e) => Err(e)
      case Ok(groups) =>
        if !components[n].Object? then Err(ComponentNotAnObject(n))
        else AddComponent(groups, components[n].fields, repr)
  }

  /** `_groups`. */
  function GroupsOf(document: Json, repr: Json -> string): Result<Groups> {
    if !document.Object? || Field(document.fields, "bomFormat", Null) != Text("CycloneDX") then Err(NotCycloneDx)
    else
      var components := Field(document.fields, "components", List([]));
      if components.Null? then Ok(map[])
      else if !components.List? then Err(ComponentsNotAList)
      else GroupAll(components.items, repr)
  }

  // ----- the comparison

  datatype Change = Change(key: string, name: string, before: seq<string>, after: seq<string>)

  datatype Diff = Diff(added: seq<Change>, removed: seq<Change>, versionChanged: seq<Change>,
        licenceChanged: seq<Change>, same: nat)

  const NO_CHANGE := Diff([], [], [], [], 0)

  predicate HasChanges(d: Diff) {
    d.added != [] || d.removed != [] || d.versionChanged != [] || d.licenceChanged != []
  }

  ghost predicate IsListing(s: set<string>, list: seq<string>) {
    NoDuplicates(list) && Sorted(list, StrLe) && (forall x :: x in list <==> x in s)
  }

  /** `sorted` of a set: the one increasing list of its members. */
  ghost function SortedSet(s: set<string>): (list: seq<string>)
    ensures IsListing(s, list)
  {
    ListingExists(s);
    var list :| IsListing(s, list);
    list
  }

  ghost function CompareKey(d: Diff, key: string, was: Groups, now: Groups): Diff
    requires key in was || key in now
  {
    if key !in was then d.(added := d.added + [Change(key, now[key].name, [], SortedSet(now[key].versions))])
    else if key !in now then d.(removed := d.removed + [Change(key, was[key].name, SortedSet(was[key].versions), [])])
    else
      var a, b := was[key], now[key];
      Diff(
        d.added, d.removed,
        d.versionChanged + (if a.versions == b.versions then []
                            else [Change(key, b.name, SortedSet(a.versions), SortedSet(b.versions))]),
        d.licenceChanged + (if a.licences == b.licences then []
                            else [Change(key, b.name, SortedSet(a.licences), SortedSet(b.licences))]),
        d.same + if a.versions == b.versions && a.licences == b.licences then 1 else 0)
  }

  ghost function CompareAll(keys: seq<string>, was: Groups, now: Groups): Diff
    requires forall k :: k in keys ==> k in was || k in now
  {
    if keys == [] then NO_CHANGE
    else
      assert keys[|keys| - 1] in keys;
      CompareKey(CompareAll(keys[..|keys| - 1], was, now), keys[|keys| - 1], was, now)
  }

  ghost function Compared(was: Groups, now: Groups): Diff {
    CompareAll(SortedSet(was.Keys + now.Keys), was, now)
  }

  /** `diff_sboms`, labels aside. */
  ghost function DiffOf(before: Json, after: Json, repr: Json -> string): Result<Diff> {
    match GroupsOf(before, repr)
    case Err(e) => Err(e)
    case Ok(was) =>
      match GroupsOf(after, repr)
      case Err(e) => Err(e)
      case Ok(now) => Ok(Compared(was, now))
  }

  // ----- sorted sets

  lemma {:induction false} ListingExists(s: set<string>)
    ensures exists list :: IsListing(s, list)
    decreases |s|
  {
    hide StrLe, IsListing;
    if s == {} {
      EmptyListing();
      assert IsListing(s, []);
    } else {
      var x :| x in s;
      ListingExists(s - {x});
      var list :| IsListing(s - {x}, list);
      InsertListing(s - {x}, list, x);
      assert s - {x} + {x} == s;
      assert IsListing(s, Insert(x, list, StrLe));
    }
  }

  lemma EmptyListing()
    ensures IsListing({}, [])
  {
  }

  lemma InsertListing(s: set<string>, list: seq<string>, x: string)
    requires IsListing(s, list) && x !in s
    ensures IsListing(s + {x}, Insert(x, list, StrLe))
  {
    hide StrLe, Insert;
    var r := Insert(x, list, StrLe);
    StringOrder();
    InsertSorted(x, list, StrLe);
    assert multiset(r) == multiset([x] + list);
    SameElements(r, [x] + list);
    CountsOfDistinct([x] + list);
    forall i, j | 0 <= i < j < |r|
      ensures r[i] != r[j]
    {
      if r[i] == r[j] {
        CountsTwice(r, i, j);
      }
    }
  }

  lemma ListingUnique(s: set<string>, a: seq<string>, b: seq<string>)
    requires IsListing(s, a) && IsListing(s, b)
    ensures a == b
  {
    hide StrLe;
    StringOrder();
    CountsOfDistinct(a);
    CountsOfDistinct(b);
    forall x
      ensures multiset(a)[x] == multiset(b)[x]
    {
      assert x in multiset(a) <==> x in a;
      assert x in multiset(b) <==> x in b;
    }
    assert multiset(a) == multiset(b);
    forall x, y | StrLe(x, y) && StrLe(y, x)
      ensures x == y
    {
      StrTotal(x, y);
    }
    SortedUnique(a, b, StrLe);
  }

  // ----- the code

  method SortSet(s: set<string>) returns (list: seq<string>)
    ensures list == SortedSet(s)
  {
    hide StrLe, IsListing;
    list := [];
    EmptyListing();
    var rest := s;
    assert s - rest == {};
    while rest != {}
      invariant rest <= s && IsListing(s - rest, list)
      decreases |rest|
    {
      var x :| x in rest;
      InsertListing(s - rest, list, x);
      assert s - rest + {x} == s - (rest - {x});
      list := Insert(x, list, StrLe);
      rest := rest - {x};
    }
    assert s - {} == s;
    ListingUnique(s, list, SortedSet(s));
  }

  method GroupComponents(components: seq<Json>, repr: Json -> string) returns (r: Result<Groups>)
    ensures r == GroupAll(components, repr)
  {
    hide AddComponent;
    var groups: Groups := map[];
    for i := 0 to |components|
      invariant GroupAll(components[..i], repr) == Ok(groups)
    {
      assert components[..i + 1][..i] == components[..i];
      if !components[i].Object? {
        ErrorStays(components, i + 1, repr);
        return Err(ComponentNotAnObject(i));
      }
      var next := AddComponent(groups, components[i].fields, repr);
      if next.Err? {
        ErrorStays(components, i + 1, repr);
        return Err(next.error);
      }
      groups := next.value;
    }
    assert components[..|components|] == components;
    r := Ok(groups);
  }

  lemma {:induction false} ErrorStays(components: seq<Json>, i: nat, repr: Json -> string)
    requires i <= |components| && GroupAll(components[..i], repr).Err?
    ensures GroupAll(components, repr) == GroupAll(components[..i], repr)
  {
    hide AddComponent;
    if i < |components| {
      var n := |components| - 1;
      assert components[..n][..i] == components[..i];
      ErrorStays(components[..n], i, repr);
    } else {
      assert components[..i] == components;
    }
  }

  method ReadGroups(document: Json, repr: Json -> string) returns (r: Result<Groups>)
    ensures r == GroupsOf(document, repr)
  {
    hide GroupAll;
    if !document.Object? || Field(document.fields, "bomFormat", Null) != Text("CycloneDX") {
      return Err(NotCycloneDx);
    }
    var components := Field(document.fields, "components", List([]));
    if components.Null? {
      return Ok(map[]);
    }
    if !components.List? {
      return Err(ComponentsNotAList);
    }
    r := GroupComponents(components.items, repr);
  }

  /** One turn of the loop over the keys. */
  method CompareOne(d: Diff, key: string, was: Groups, now: Groups) returns (r: Diff)
    requires key in was || key in now
    ensures r == CompareKey(d, key, was, now)
  {
    hide IsListing;
    r := d;
    if key !in was {
      var after := SortSet(now[key].versions);
      return r.(added := r.added + [Change(key, now[key].name, [], after)]);
    }
    if key !in now {
      var before := SortSet(was[key].versions);
      return r.(removed := r.removed + [Change(key, was[key].name, before, [])]);
    }
    var a, b := was[key], now[key];
    var equal := true;
    if a.versions != b.versions {
      var before := SortSet(a.versions);
      var after := SortSet(b.versions);
      r := r.(versionChanged := r.versionChanged + [Change(key, b.name, before, after)]);
      equal := false;
    }
    if a.licences != b.licences {
      var before := SortSet(a.licences);
      var after := SortSet(b.licences);
      r := r.(licenceChanged := r.licenceChanged + [Change(key, b.name, before, after)]);
      equal := false;
    }
    if equal {
      r := r.(same := r.same + 1);
    }
  }

  method DiffSboms(before: Json, after: Json, repr: Json -> string) returns (r: Result<Diff>)
    ensures r == DiffOf(before, after, repr)
  {
    hide GroupsOf, CompareKey, IsListing;
    var reading := ReadGroups(before, repr);
    if reading.Err? {
      return Err(reading.error);
    }
    var was := reading.value;
    reading := ReadGroups(after, repr);
    if reading.Err? {
      return Err(reading.error);
    }
    var now := reading.value;
    var d := CompareGroups(was, now);
    r := Ok(d);
  }

  method CompareGroups(was: Groups, now: Groups) returns (d: Diff)
    ensures d == Compared(was, now)
  {
    AllKeysKnown(was, now);
    hide SortedSet, IsListing, CompareKey;
    var keys := SortSet(was.Keys + now.Keys);
    d := NO_CHANGE;
    for i := 0 to |keys|
      invariant d == CompareAll(keys[..i], was, now)
    {
      assert keys[..i + 1][..i] == keys[..i];
      assert keys[i] in keys;
      d := CompareOne(d, keys[i], was, now);
    }
    assert keys[..|keys|] == keys;
  }

  // ----- every key once

  ghost predicate Versioned(was: Groups, now: Groups, k: string) {
    k in was && k in now && was[k].versions != now[k].versions
  }

  ghost predicate Relicensed(was: Groups, now: Groups, k: string) {
    k in was && k in now && was[k].licences != now[k].licences
  }

  ghost predicate Same(was: Groups, now: Groups, k: string) {
    k in was && k in now && was[k].versions == now[k].versions && was[k].licences == now[k].licences
  }

  ghost predicate KeysKnown(keys: seq<string>, was: Groups, now: Groups) {
    forall k :: k in keys ==> k in was || k in now
  }

  lemma {:induction false} AddedExactly(keys: seq<string>, was: Groups, now: Groups, c: Change)
    requires KeysKnown(keys, was, now)
    ensures c in CompareAll(keys, was, now).added
       <==> c.key in keys && c.key !in was && c == Change(c.key, now[c.key].name, [], SortedSet(now[c.key].versions))
  {
    hide SortedSet, IsListing;
    if keys != [] {
      var n := |keys| - 1;
      assert keys == keys[..n] + [keys[n]];
      AddedExactly(keys[..n], was, now, c);
    }
  }

  lemma {:induction false} RemovedExactly(keys: seq<string>, was: Groups, now: Groups, c: Change)
    requires KeysKnown(keys, was, now)
    ensures c in CompareAll(keys, was, now).removed
       <==> c.key in keys && c.key !in now && c == Change(c.key, was[c.key].name, SortedSet(was[c.key].versions), [])
  {
    hide SortedSet, IsListing;
    if keys != [] {
      var n := |keys| - 1;
      assert keys == keys[..n] + [keys[n]];
      RemovedExactly(keys[..n], was, now, c);
    }
  }

  lemma {:induction false} VersionChangedExactly(keys: seq<string>, was: Groups, now: Groups, c: Change)
    requires KeysKnown(keys, was, now)
    ensures c in CompareAll(keys, was, now).versionChanged
       <==> c.key in keys && Versioned(was, now, c.key)
            && c == Change(c.key, now[c.key].name, SortedSet(was[c.key].versions), SortedSet(now[c.key].versions))
  {
    hide SortedSet, IsListing;
    if keys != [] {
      var n := |keys| - 1;
      assert keys == keys[..n] + [keys[n]];
      VersionChangedExactly(keys[..n], was, now, c);
    }
  }

  lemma {:induction false} LicenceChangedExactly(keys: seq<string>, was: Groups, now: Groups, c: Change)
    requires KeysKnown(keys, was, now)
    ensures c in CompareAll(keys, was, now).licenceChanged
       <==> c.key in keys && Relicensed(was, now, c.key)
            && c == Change(c.key, now[c.key].name, SortedSet(was[c.key].licences), SortedSet(now[c.key].licences))
  {
    hide SortedSet, IsListing;
    if keys != [] {
      var n := |keys| - 1;
      assert keys == keys[..n] + [keys[n]];
      LicenceChangedExactly(keys[..n], was, now, c);
    }
  }

  function ChangeKeys(cs: seq<Change>): (keys: seq<string>)
    ensures |keys| == |cs| && forall i :: 0 <= i < |cs| ==> keys[i] == cs[i].key
  {
    seq(|cs|, i requires 0 <= i < |cs| => cs[i].key)
  }

  ghost function SameCount(keys: seq<string>, was: Groups, now: Groups): nat {
    if keys == [] then 0
    else SameCount(keys[..|keys| - 1], was, now) + if Same(was, now, keys[|keys| - 1]) then 1 else 0
  }

  ghost function AlteredCount(keys: seq<string>, was: Groups, now: Groups): nat {
    if keys == [] then 0
    else
      var k := keys[|keys| - 1];
      AlteredCount(keys[..|keys| - 1], was, now) + if Versioned(was, now, k) || Relicensed(was, now, k) then 1 else 0
  }

  /** Every key is counted once: added, removed, altered in version or licence, or unchanged. */
  lemma {:induction false} EveryKeyOnce(keys: seq<string>, was: Groups, now: Groups)
    requires KeysKnown(keys, was, now)
    ensures var d := CompareAll(keys, was, now);
            && d.same == SameCount(keys, was, now)
            && |d.added| + |d.removed| + AlteredCount(keys, was, now) + d.same == |keys|
  {
    hide SortedSet, IsListing;
    if keys != [] {
      EveryKeyOnce(keys[..|keys| - 1], was, now);
      assert keys[|keys| - 1] in keys;
    }
  }

  ghost predicate ListsDistinct(d: Diff) {
    && NoDuplicates(ChangeKeys(d.added)) && NoDuplicates(ChangeKeys(d.removed))
    && NoDuplicates(ChangeKeys(d.versionChanged)) && NoDuplicates(ChangeKeys(d.licenceChanged))
  }

  ghost predicate KeysWithin(cs: seq<Change>, keys: seq<string>) {
    forall i :: 0 <= i < |cs| ==> cs[i].key in keys
  }

  lemma ListsWithin(keys: seq<string>, was: Groups, now: Groups)
    requires KeysKnown(keys, was, now)
    ensures var d := CompareAll(keys, was, now);
            && KeysWithin(d.added, keys) && KeysWithin(d.removed, keys)
            && KeysWithin(d.versionChanged, keys) && KeysWithin(d.licenceChanged, keys)
  {
    var d := CompareAll(keys, was, now);
    hide CompareAll, SortedSet, KeysKnown, Versioned, Relicensed, IsListing;
    forall i | 0 <= i < |d.added|
      ensures d.added[i].key in keys
    {
      AddedExactly(keys, was, now, d.added[i]);
    }
    forall i | 0 <= i < |d.removed|
      ensures d.removed[i].key in keys
    {
      RemovedExactly(keys, was, now, d.removed[i]);
    }
    forall i | 0 <= i < |d.versionChanged|
      ensures d.versionChanged[i].key in keys
    {
      VersionChangedExactly(keys, was, now, d.versionChanged[i]);
    }
    forall i | 0 <= i < |d.licenceChanged|
      ensures d.licenceChanged[i].key in keys
    {
      LicenceChangedExactly(keys, was, now, d.licenceChanged[i]);
    }
  }

  lemma OneMoreDistinct(cs: seq<Change>, c: Change, keys: seq<string>)
    requires NoDuplicates(ChangeKeys(cs)) && KeysWithin(cs, keys) && c.key !in keys
    ensures NoDuplicates(ChangeKeys(cs + [c]))
  {
  }

  lemma CompareKeyDistinct(d: Diff, keys: seq<string>, key: string, was: Groups, now: Groups)
    requires (key in was || key in now) && key !in keys && ListsDistinct(d)
    requires KeysWithin(d.added, keys) && KeysWithin(d.removed, keys)
    requires KeysWithin(d.versionChanged, keys) && KeysWithin(d.licenceChanged, keys)
    ensures ListsDistinct(CompareKey(d, key, was, now))
  {
    hide SortedSet, NoDuplicates, ChangeKeys, KeysWithin, IsListing;
    var e := CompareKey(d, key, was, now);
    if key !in was {
      OneMoreDistinct(d.added, e.added[|d.added|], keys);
    } else if key !in now {
      OneMoreDistinct(d.removed, e.removed[|d.removed|], keys);
    } else {
      if was[key].versions != now[key].versions {
        OneMoreDistinct(d.versionChanged, e.versionChanged[|d.versionChanged|], keys);
      } else {
        assert e.versionChanged == d.versionChanged;
      }
      if was[key].licences != now[key].licences {
        OneMoreDistinct(d.licenceChanged, e.licenceChanged[|d.licenceChanged|], keys);
      } else {
        assert e.licenceChanged == d.licenceChanged;
      }
    }
  }

  /** No list names a key twice. */
  lemma {:induction false} NoKeyTwice(keys: seq<string>, was: Groups, now: Groups)
    requires KeysKnown(keys, was, now) && NoDuplicates(keys)
    ensures ListsDistinct(CompareAll(keys, was, now))
  {
    hide CompareKey, ListsDistinct, KeysWithin;
    if keys == [] {
      NothingTwice();
    } else {
      var n := |keys| - 1;
      assert keys[n] in keys && keys[n] !in keys[..n];
      NoKeyTwice(keys[..n], was, now);
      ListsWithin(keys[..n], was, now);
      CompareKeyDistinct(CompareAll(keys[..n], was, now), keys[..n], keys[n], was, now);
    }
  }

  lemma NothingTwice()
    ensures ListsDistinct(NO_CHANGE)
  {
  }

  /** In a whole comparison each of the four lists names a package at most once. */
  lemma ListsNameKeysOnce(was: Groups, now: Groups)
    ensures ListsDistinct(Compared(was, now))
  {
    AllKeysKnown(was, now);
    var keys := SortedSet(was.Keys + now.Keys);
    assert IsListing(was.Keys + now.Keys, keys);
    hide SortedSet, ListsDistinct, CompareAll;
    NoKeyTwice(keys, was, now);
  }

  lemma AllKeysKnown(was: Groups, now: Groups)
    ensures KeysKnown(SortedSet(was.Keys + now.Keys), was, now)
    ensures forall k :: k in SortedSet(was.Keys + now.Keys) <==> k in was || k in now
  {
    var keys := SortedSet(was.Keys + now.Keys);
    assert IsListing(was.Keys + now.Keys, keys);
  }

  /** Nothing is reported exactly when both sides have the same packages with the same versions and licences. */
  lemma NoChangesMeansEqual(was: Groups, now: Groups)
    ensures !HasChanges(Compared(was, now)) <==> was.Keys == now.Keys && forall k :: k in was ==> Same(was, now, k)
  {
    hide SortedSet, IsListing, CompareAll;
    var keys := SortedSet(was.Keys + now.Keys);
    AllKeysKnown(was, now);
    var d := CompareAll(keys, was, now);
    forall k | k in keys
      ensures k !in was ==> d.added != []
      ensures k !in now ==> d.removed != []
      ensures Versioned(was, now, k) ==> d.versionChanged != []
      ensures Relicensed(was, now, k) ==> d.licenceChanged != []
    {
      KeyIsReported(keys, was, now, k);
    }
    if HasChanges(d) {
      SomeKeyDiffers(keys, was, now);
    }
  }

  lemma KeyIsReported(keys: seq<string>, was: Groups, now: Groups, k: string)
    requires KeysKnown(keys, was, now) && k in keys
    ensures var d := CompareAll(keys, was, now);
            && (k !in was ==> d.added != []) && (k !in now ==> d.removed != [])
            && (Versioned(was, now, k) ==> d.versionChanged != [])
            && (Relicensed(was, now, k) ==> d.licenceChanged != [])
  {
    hide SortedSet, IsListing, CompareAll;
    if k !in was {
      AddedExactly(keys, was, now, Change(k, now[k].name, [], SortedSet(now[k].versions)));
    } else if k !in now {
      RemovedExactly(keys, was, now, Change(k, was[k].name, SortedSet(was[k].versions), []));
    } else {
      var a, b := was[k], now[k];
      VersionChangedExactly(keys, was, now, Change(k, b.name, SortedSet(a.versions), SortedSet(b.versions)));
      LicenceChangedExactly(keys, was, now, Change(k, b.name, SortedSet(a.licences), SortedSet(b.licences)));
    }
  }

  lemma SomeKeyDiffers(keys: seq<string>, was: Groups, now: Groups)
    requires KeysKnown(keys, was, now) && HasChanges(CompareAll(keys, was, now))
    ensures exists k :: k in keys && !Same(was, now, k)
  {
    hide SortedSet, IsListing, CompareAll;
    var d := CompareAll(keys, was, now);
    if d.added != [] {
      AddedExactly(keys, was, now, d.added[0]);
    } else if d.removed != [] {
      RemovedExactly(keys, was, now, d.removed[0]);
    } else if d.versionChanged != [] {
      VersionChangedExactly(keys, was, now, d.versionChanged[0]);
    } else {
      LicenceChangedExactly(keys, was, now, d.licenceChanged[0]);
    }
  }

  // ----- the other way round

  function Flip(c: Change): Change {
    Change(c.key, c.name, c.after, c.before)
  }

  function Flipped(cs: seq<Change>): (r: seq<Change>)
    ensures |r| == |cs| && forall i :: 0 <= i < |cs| ==> r[i] == Flip(cs[i])
  {
    seq(|cs|, i requires 0 <= i < |cs| => Flip(cs[i]))
  }

  /** The same changes, each read backwards, whatever name they are shown under. */
  predicate Mirrors(a: seq<Change>, b: seq<Change>) {
    |a| == |b| && forall i :: 0 <= i < |a| ==>
          a[i].key == b[i].key && a[i].before == b[i].after && a[i].after == b[i].before
  }

  lemma {:induction false} MirrorsAll(keys: seq<string>, was: Groups, now: Groups)
    requires KeysKnown(keys, was, now)
    ensures var d, m := CompareAll(keys, was, now), CompareAll(keys, now, was);
            && m.added == Flipped(d.removed) && m.removed == Flipped(d.added)
            && Mirrors(m.versionChanged, d.versionChanged) && Mirrors(m.licenceChanged, d.licenceChanged)
            && m.same == d.same
  {
    hide SortedSet, IsListing;
    if keys != [] {
      var n := |keys| - 1;
      assert keys[n] in keys;
      MirrorsAll(keys[..n], was, now);
      MirrorsOne(CompareAll(keys[..n], was, now), CompareAll(keys[..n], now, was), keys[n], was, now);
    }
  }

  lemma MirrorsOne(d: Diff, m: Diff, key: string, was: Groups, now: Groups)
    requires key in was || key in now
    requires m.added == Flipped(d.removed) && m.removed == Flipped(d.added) && m.same == d.same
    requires Mirrors(m.versionChanged, d.versionChanged) && Mirrors(m.licenceChanged, d.licenceChanged)
    ensures var d', m' := CompareKey(d, key, was, now), CompareKey(m, key, now, was);
            && m'.added == Flipped(d'.removed) && m'.removed == Flipped(d'.added) && m'.same == d'.same
            && Mirrors(m'.versionChanged, d'.versionChanged) && Mirrors(m'.licenceChanged, d'.licenceChanged)
  {
    hide SortedSet, IsListing;
  }

  /** Comparing the other way round reports the same keys: added for removed, and every change backwards. */
  lemma SwappingMirrors(was: Groups, now: Groups)
    ensures var d, m := Compared(was, now), Compared(now, was);
            && m.added == Flipped(d.removed) && m.removed == Flipped(d.added)
            && Mirrors(m.versionChanged, d.versionChanged) && Mirrors(m.licenceChanged, d.licenceChanged)
            && m.same == d.same
  {
    hide SortedSet, IsListing, CompareAll;
    assert was.Keys + now.Keys == now.Keys + was.Keys;
    AllKeysKnown(was, now);
    MirrorsAll(SortedSet(was.Keys + now.Keys), was, now);
  }

  // ----- exported documents

  /** `build_sbom`, the fields of one component that a comparison reads. */
  function Exported(c: Component): map<string, Json> {
    var entry := map["name" := Text(c.name), "version" := Text(c.version), "purl" := Text(Print(c))];
    if c.licence == "" then entry else entry["licenses" := List([Object(map["expression" := Text(c.licence)])])]
  }

  /** The key a package ought to have. */
  function PackageKey(e: Ecosystem, name: string): string {
    Prefix(e) + Quote(name)
  }

  predicate Plain(s: string) {
    '@' !in s && '#' !in s && '?' !in s
  }

  lemma QuoteIsPlain(s: string)
    ensures Plain(Quote(s))
  {
    QuoteAlphabet(s);
    MarksAreUnsafe();
    hide Quote, Safe;
    var q := Quote(s);
    assert forall i :: 0 <= i < |q| ==> q[i] != '@' && q[i] != '#' && q[i] != '?';
  }

  lemma MarksAreUnsafe()
    ensures !Safe('@') && !Safe('#') && !Safe('?')
  {
  }

  lemma PrefixIsPlain(e: Ecosystem)
    ensures Plain(Prefix(e)) && |Prefix(e)| >= 5 && Prefix(e)[..4] == "pkg:"
    ensures Prefix(e)[|Prefix(e)| - 1] == '/'
    ensures IndexOf(Prefix(e), '/') == |Prefix(e)| - 1
  {
    var t := TypeText(e);
    assert '/' !in t && Plain(t);
    hide TypeText;
    var p := Prefix(e);
    assert p[..4] == "pkg:" && p[4..|p| - 1] == t;
    forall i | 0 <= i < |p| - 1
      ensures p[i] != '/' && p[i] != '@' && p[i] != '#' && p[i] != '?'
    {
      if i >= 4 {
        assert p[i] == t[i - 4];
      }
    }
  }

  lemma LastIs(s: string, c: char, j: nat)
    requires j < |s| && s[j] == c && c !in s[j + 1..]
    ensures LastIndexOf(s, c) == j
  {
    hide LastIndexOf;
    assert forall k :: j < k < |s| ==> s[k] == s[j + 1..][k - j - 1];
  }

  lemma FirstIs(s: string, c: char, j: nat)
    requires j < |s| && s[j] == c && c !in s[..j]
    ensures IndexOf(s, c) == j
  {
    hide IndexOf;
    assert forall k :: 0 <= k < j ==> s[k] == s[..j][k];
  }

  lemma NothingBefore(s: string, c: char)
    requires c !in s
    ensures IndexOf(s, c) == |s| && Before(s, c) == s
  {
  }

  /** Where the path ends and the version begins, when no slash hides in the version. */
  lemma SplitAtVersion(head: string, segment: string, v: string)
    requires Plain(head) && Plain(segment) && '/' !in segment && head != "" && '/' !in v && '#' !in v && '?' !in v
    requires v == "" || v[0] == '@'
    ensures SplitPurl(head + "/" + segment + v) == (head + "/" + segment, if v == "" then "" else v[1..])
  {
    hide IndexOf, LastIndexOf;
    var purl := head + "/" + segment + v;
    NothingBefore(purl, '#');
    NothingBefore(purl, '?');
    var tail := segment + v;
    assert purl[|head| + 1..] == tail && purl[..|head|] == head;
    LastIs(purl, '/', |head|);
    if v == "" {
      assert tail == segment;
      NothingBefore(tail, '@');
    } else {
      assert tail[..|segment|] == segment && tail[|segment| + 1..] == v[1..];
      FirstIs(tail, '@', |segment|);
    }
  }

  /** A slash in the version hides where it begins: nothing is cut off. */
  lemma SplitInsideVersion(body: string, w: string)
    requires Plain(body) && Plain(w) && '/' in w && body != ""
    ensures SplitPurl(body + "@" + w).0 == body + "@" + w
  {
    hide IndexOf, LastIndexOf;
    var purl := body + "@" + w;
    NothingBefore(purl, '#');
    NothingBefore(purl, '?');
    var j := LastIndexOf(w, '/');
    var tail := w[j + 1..];
    var slash := |body| + 1 + j;
    assert purl[slash] == '/' && purl[slash + 1..] == tail;
    assert forall k :: 0 <= k < |tail| ==> tail[k] == w[j + 1 + k];
    LastIs(purl, '/', slash);
    NothingBefore(tail, '@');
    assert purl[..slash] + "/" + tail == purl;
  }

  lemma BodySplits(e: Ecosystem, n: string) returns (head: string, segment: string)
    ensures PackageKey(e, n) == head + "/" + segment
    ensures Plain(head) && Plain(segment) && '/' !in segment && head != ""
  {
    PrefixIsPlain(e);
    QuoteIsPlain(n);
    var p, q := Prefix(e), Quote(n);
    hide Prefix, Quote, IndexOf, LastIndexOf;
    var k := LastIndexOf(q, '/');
    if k < 0 {
      head, segment := p[..|p| - 1], q;
      assert p == head + "/";
    } else {
      head, segment := p + q[..k], q[k + 1..];
      assert q == q[..k] + "/" + segment;
      assert p + q == head + "/" + segment;
    }
  }

  lemma SplitPrinted(c: Component, n: string)
    requires n == if LosesSlash(c) then c.name[1..] else c.name
    ensures var split := SplitPurl(Print(c));
            && ('/' !in c.version ==> split == (PackageKey(c.ecosystem, n), Quote(c.version)))
            && ('/' in c.version ==> split.0 == Print(c))
  {
    var head, segment := BodySplits(c.ecosystem, n);
    QuoteIsPlain(c.version);
    QuoteAlphabet(c.version);
    var body, w := PackageKey(c.ecosystem, n), Quote(c.version);
    PrintedBody(c, n);
    hide SplitPurl, Quote, Prefix, PurlPath, Print, PackageKey, LosesSlash;
    if '/' in c.version {
      assert w != "";
      SplitInsideVersion(body, w);
    } else if c.version == "" {
      SplitAtVersion(head, segment, "");
      assert body + "" == body;
      QuoteNothing();
    } else {
      SplitAtVersion(head, segment, "@" + w);
      assert ("@" + w)[1..] == w;
      assert body + ("@" + w) == body + "@" + w;
    }
  }

  lemma QuoteNothing()
    ensures Quote("") == ""
  {
  }

  lemma PrintedBody(c: Component, n: string)
    requires n == if LosesSlash(c) then c.name[1..] else c.name
    ensures Print(c)
         == if c.version != "" then PackageKey(c.ecosystem, n) + "@" + Quote(c.version) else PackageKey(c.ecosystem, n)
    ensures c.version != "" ==> Print(c) == PackageKey(c.ecosystem, n) + ("@" + Quote(c.version))
  {
    PathIsQuotedName(c);
    hide Quote, PurlPath, Prefix, LosesSlash;
    if c.version != "" {
      Concat3(PackageKey(c.ecosystem, n), "@", Quote(c.version));
    }
  }

  lemma PrintedIsPurl(c: Component)
    ensures IsPurl(Text(Print(c)))
  {
    PrefixIsPlain(c.ecosystem);
    hide Prefix, PurlPath, Quote;
    var p := Print(c);
    assert p[..4] == Prefix(c.ecosystem)[..4];
  }

  lemma SpaceIsUnsafe(c: char)
    requires IsSpace(c)
    ensures !Safe(c)
  {
  }

  /** Text that needs an escape does not print as itself. */
  lemma {:induction false} UnsafePrintsDifferently(s: string, i: nat)
    requires i < |s| && !Safe(s[i])
    ensures |Quote(s)| > |s|
  {
    hide Safe, HexDigits;
    if i == 0 {
      QuoteAlphabet(s[1..]);
      HexLength(s[0]);
    } else {
      UnsafePrintsDifferently(s[1..], i - 1);
      QuoteCharAlphabet(s[0]);
    }
  }

  lemma HexLength(c: char)
    ensures |Hex(c as int)| >= 2
  {
    HexIsHex(c as int);
  }

  lemma ExportedFields(c: Component)
    ensures var e := Exported(c);
            && Field(e, "name", Text("")) == Text(c.name) && Field(e, "version", Null) == Text(c.version)
            && Field(e, "purl", Null) == Text(Print(c))
            && Field(e, "licenses", Null) == (if c.licence == "" then Null
                                             else List([Object(map["expression" := Text(c.licence)])]))
  {
    hide Print;
  }

  lemma IdentityByParts(c: Component, repr: Json -> string)
    ensures Identity(Exported(c), repr)
         == Ok((SplitPurl(Print(c)).0, if Strip(c.version) != "" then Strip(c.version) else SplitPurl(Print(c)).1))
  {
    ExportedFields(c);
    PrintedIsPurl(c);
    hide Exported, Print, SplitPurl, Strip, Field;
    StripNothing();
  }

  lemma StripNothing()
    ensures Strip("") == ""
  {
  }

  lemma KeyParts(c: Component)
    ensures SplitPurl(Print(c)).0 == PackageKey(c.ecosystem, c.name) <==> '/' !in c.version && !LosesSlash(c)
  {
    var n := if LosesSlash(c) then c.name[1..] else c.name;
    SplitPrinted(c, n);
    KeyIsPlain(c.ecosystem, c.name);
    PrintedBody(c, n);
    hide SplitPurl, Quote, Prefix, PurlPath, Print, LosesSlash;
    if '/' in c.version {
      assert '@' in Print(c) by {
        assert Print(c)[|PackageKey(c.ecosystem, n)|] == '@';
      }
    } else if LosesSlash(c) {
      LostSlashShows(c);
    }
  }

  lemma KeyIsPlain(e: Ecosystem, n: string)
    ensures Plain(PackageKey(e, n))
  {
    PrefixIsPlain(e);
    QuoteIsPlain(n);
    hide Prefix, Quote;
  }

  lemma LostSlashShows(c: Component)
    requires LosesSlash(c)
    ensures PackageKey(c.ecosystem, c.name[1..]) != PackageKey(c.ecosystem, c.name)
  {
    QuoteCharAlphabet(c.name[0]);
    hide QuoteChar, Prefix;
    assert |Quote(c.name)| > |Quote(c.name[1..])|;
  }

  lemma VersionParts(c: Component)
    ensures (if Strip(c.version) != "" then Strip(c.version) else SplitPurl(Print(c)).1) == c.version
       <==> Strip(c.version) == c.version
  {
    hide SplitPurl, Strip, Print;
    var n := if LosesSlash(c) then c.name[1..] else c.name;
    SplitPrinted(c, n);
    if Strip(c.version) == "" {
      if c.version == "" {
        QuoteNothing();
      } else {
        BlankVersion(c.version);
      }
    }
  }

  lemma BlankVersion(v: string)
    requires v != "" && Strip(v) == ""
    ensures '/' !in v && Quote(v) != v
  {
    BlankIsAllSpace(v);
    SpaceIsUnsafe(v[0]);
    UnsafePrintsDifferently(v, 0);
    hide Strip, Quote, IsSpace;
    assert !IsSpace('/') by { SlashIsNoSpace(); }
  }

  lemma SlashIsNoSpace()
    ensures !IsSpace('/')
  {
  }

  lemma {:induction false} BlankIsAllSpace(s: string)
    requires Strip(s) == ""
    ensures forall i :: 0 <= i < |s| ==> IsSpace(s[i])
  {
    if s != "" {
      if IsSpace(s[0]) {
        BlankIsAllSpace(s[1..]);
      } else if IsSpace(s[|s| - 1]) {
        BlankIsAllSpace(s[..|s| - 1]);
      }
    }
  }

  /**
   What a comparison reads of an exported component: the package's own key exactly when the version
   has no slash and the name is not a Go path that loses its only slash; the version itself
   exactly when it has no outer white space.
   */
  lemma IdentityOfExport(c: Component, repr: Json -> string)
    ensures var id := Identity(Exported(c), repr);
            && id.Ok?
            && (id.value.0 == PackageKey(c.ecosystem, c.name) <==> '/' !in c.version && !LosesSlash(c))
            && (id.value.1 == c.version <==> Strip(c.version) == c.version)
  {
    hide Identity, Exported, SplitPurl, Print, Strip, LosesSlash, PackageKey;
    IdentityByParts(c, repr);
    KeyParts(c);
    VersionParts(c);
  }

  /** No two packages share a key. */
  lemma KeysTellPackagesApart(e1: Ecosystem, n1: string, e2: Ecosystem, n2: string)
    requires Latin1(n1) && Latin1(n2)
    ensures PackageKey(e1, n1) == PackageKey(e2, n2) <==> e1 == e2 && n1 == n2
  {
    if PackageKey(e1, n1) == PackageKey(e2, n2) {
      SamePrefix(e1, Quote(n1), e2, Quote(n2));
      QuoteInjective(n1, n2);
    }
  }

  lemma SamePrefix(e1: Ecosystem, q1: string, e2: Ecosystem, q2: string)
    requires Prefix(e1) + q1 == Prefix(e2) + q2
    ensures e1 == e2 && q1 == q2
  {
    PrefixIsPlain(e1);
    PrefixIsPlain(e2);
    var a, b := Prefix(e1), Prefix(e2);
    PrefixSlash(a, q1);
    PrefixSlash(b, q2);
    assert |a| == |b|;
    assert a == (a + q1)[..|a|] == b;
    assert q1 == (a + q1)[|a|..] == q2;
    SameType(e1, e2);
  }

  lemma PrefixSlash(p: string, q: string)
    requires p != "" && IndexOf(p, '/') == |p| - 1
    ensures IndexOf(p + q, '/') == |p| - 1
  {
    hide IndexOf;
    assert (p + q)[..|p| - 1] == p[..|p| - 1];
    assert forall k :: 0 <= k < |p| - 1 ==> p[k] == p[..|p| - 1][k];
    FirstIs(p + q, '/', |p| - 1);
  }

  lemma SameType(e1: Ecosystem, e2: Ecosystem)
    requires Prefix(e1) == Prefix(e2)
    ensures e1 == e2
  {
    var t1, t2 := TypeText(e1), TypeText(e2);
    assert t1 == Prefix(e1)[4..|Prefix(e1)| - 1] == t2;
    TypesDiffer(e1, e2);
  }

  lemma TypesDiffer(e1: Ecosystem, e2: Ecosystem)
    ensures TypeText(e1) == TypeText(e2) <==> e1 == e2
  {
  }

  // ----- comparing two exports

  function ExportedAll(inventory: seq<Component>): (r: seq<Json>)
    ensures |r| == |inventory| && forall i :: 0 <= i < |r| ==> r[i] == Object(Exported(inventory[i]))
  {
    seq(|inventory|, i requires 0 <= i < |inventory| => Object(Exported(inventory[i])))
  }

  function Document(inventory: seq<Component>): Json {
    Object(map["bomFormat" := Text("CycloneDX"), "components" := List(ExportedAll(inventory))])
  }

  predicate Exportable(c: Component) {
    Latin1(c.name) && !LosesSlash(c) && '/' !in c.version && Strip(c.version) == c.version
  }

  predicate IsPackage(c: Component, e: Ecosystem, n: string) {
    c.ecosystem == e && c.name == n
  }

  function PackageVersions(inventory: seq<Component>, e: Ecosystem, n: string): set<string> {
    set i | 0 <= i < |inventory| && IsPackage(inventory[i], e, n) :: inventory[i].version
  }

  function PackageLicences(inventory: seq<Component>, e: Ecosystem, n: string): set<string> {
    set i | 0 <= i < |inventory| && IsPackage(inventory[i], e, n) && inventory[i].licence != "" ::
        Strip(inventory[i].licence)
  }

  /** The groups hold, for every package, exactly its versions and licences in the inventory. */
  ghost predicate Summarises(groups: Groups, inventory: seq<Component>) {
    forall e, n :: Latin1(n) ==> SummarisesPackage(groups, inventory, e, n)
  }

  ghost predicate SummarisesPackage(groups: Groups, inventory: seq<Component>, e: Ecosystem, n: string) {
    var k := PackageKey(e, n);
    && (k in groups <==> PackageVersions(inventory, e, n) != {})
    && (k in groups ==> groups[k].versions == PackageVersions(inventory, e, n))
    && (k in groups ==> groups[k].licences == PackageLicences(inventory, e, n))
  }

  lemma VersionsSnoc(inventory: seq<Component>, c: Component, e: Ecosystem, n: string)
    ensures PackageVersions(inventory + [c], e, n)
         == PackageVersions(inventory, e, n) + if IsPackage(c, e, n) then {c.version} else {}
  {
    hide IsPackage;
    var all := inventory + [c];
    forall v | v in PackageVersions(inventory, e, n) + if IsPackage(c, e, n) then {c.version} else {}
      ensures v in PackageVersions(all, e, n)
    {
      if v in PackageVersions(inventory, e, n) {
        var i :| 0 <= i < |inventory| && IsPackage(inventory[i], e, n) && inventory[i].version == v;
        assert all[i] == inventory[i];
      } else {
        assert all[|inventory|] == c;
      }
    }
  }

  lemma LicencesSnoc(inventory: seq<Component>, c: Component, e: Ecosystem, n: string)
    ensures PackageLicences(inventory + [c], e, n)
         == PackageLicences(inventory, e, n) + if IsPackage(c, e, n) && c.licence != "" then {Strip(c.licence)} else {}
  {
    hide IsPackage, Strip;
    var all := inventory + [c];
    forall v | v in PackageLicences(inventory, e, n) + if IsPackage(c, e, n)
        && c.licence != "" then {Strip(c.licence)} else {}
      ensures v in PackageLicences(all, e, n)
    {
      if v in PackageLicences(inventory, e, n) {
        var i :| 0 <= i < |inventory| && IsPackage(inventory[i], e, n) && inventory[i].licence != ""
                 && Strip(inventory[i].licence) == v;
        assert all[i] == inventory[i];
      } else {
        assert all[|inventory|] == c;
      }
    }
  }

  lemma ExportedLicences(c: Component)
    ensures Licences(Exported(c)) == Ok(if c.licence == "" then {} else {Strip(c.licence)})
  {
    ExportedFields(c);
    hide Exported, Strip, Print;
    if c.licence != "" {
      var entry := Object(map["expression" := Text(c.licence)]);
      assert LicencesOf([entry]) == LicenceOf(entry) by {
        assert [entry][..0] == [];
      }
    }
  }

  lemma ExportedGroup(groups: Groups, c: Component, repr: Json -> string)
    requires Exportable(c)
    ensures AddComponent(groups, Exported(c), repr)
         == Ok(Grouped(groups, PackageKey(c.ecosystem, c.name), c.version, c.name,
                       if c.licence == "" then {} else {Strip(c.licence)}))
  {
    IdentityOfExport(c, repr);
    ExportedLicences(c);
    ExportedFields(c);
    hide Identity, Exported, Strip, Grouped, PackageKey, Licences, LosesSlash;
  }

  lemma GroupedSummarises(groups: Groups, inventory: seq<Component>, c: Component, e: Ecosystem, n: string)
    requires SummarisesPackage(groups, inventory, e, n) && Latin1(n) && Latin1(c.name)
    ensures SummarisesPackage(
              Grouped(groups, PackageKey(c.ecosystem, c.name), c.version, c.name,
                  if c.licence == "" then {} else {Strip(c.licence)}),
              inventory + [c], e, n)
  {
    VersionsSnoc(inventory, c, e, n);
    LicencesSnoc(inventory, c, e, n);
    NoVersionsNoLicences(inventory, e, n);
    KeysTellPackagesApart(c.ecosystem, c.name, e, n);
    hide Strip, PackageKey, PackageVersions, PackageLicences;
  }

  lemma NoVersionsNoLicences(inventory: seq<Component>, e: Ecosystem, n: string)
    ensures PackageVersions(inventory, e, n) == {} ==> PackageLicences(inventory, e, n) == {}
  {
    hide Strip, IsPackage;
    if l :| l in PackageLicences(inventory, e, n) {
      var i :| 0 <= i < |inventory| && IsPackage(inventory[i], e, n) && inventory[i].licence != ""
               && Strip(inventory[i].licence) == l;
      assert inventory[i].version in PackageVersions(inventory, e, n);
    }
  }

  lemma {:induction false} ExportsAreSummarised(inventory: seq<Component>, repr: Json -> string)
    requires forall i :: 0 <= i < |inventory| ==> Exportable(inventory[i])
    ensures var r := GroupAll(ExportedAll(inventory), repr);
            r.Ok? && Summarises(r.value, inventory)
  {
    hide Exportable, AddComponent, SummarisesPackage, Grouped, Exported;
    var all := ExportedAll(inventory);
    if inventory == [] {
      NothingSummarised();
    } else {
      var n := |inventory| - 1;
      var c := inventory[n];
      ExportsAreSummarised(inventory[..n], repr);
      assert all[..n] == ExportedAll(inventory[..n]);
      assert inventory[..n] + [c] == inventory;
      var groups := GroupAll(all[..n], repr).value;
      ExportedGroup(groups, c, repr);
      ExportableName(c);
      var more := Grouped(groups, PackageKey(c.ecosystem, c.name), c.version, c.name,
          if c.licence == "" then {} else {Strip(c.licence)});
      forall e, n | Latin1(n)
        ensures SummarisesPackage(more, inventory, e, n)
      {
        GroupedSummarises(groups, inventory[..|inventory| - 1], c, e, n);
      }
    }
  }

  lemma ExportableName(c: Component)
    requires Exportable(c)
    ensures Latin1(c.name)
  {
  }

  lemma NothingSummarised()
    ensures Summarises(map[], [])
  {
    hide PackageKey;
    forall e, n | Latin1(n)
      ensures SummarisesPackage(map[], [], e, n)
    {
      assert PackageVersions([], e, n) == {};
    }
  }

  ghost predicate Reported(cs: seq<Change>, k: string) {
    exists c :: c in cs && c.key == k
  }

  lemma ReportedExactly(was: Groups, now: Groups, k: string)
    ensures var d := Compared(was, now);
            && (Reported(d.added, k) <==> k !in was && k in now)
            && (Reported(d.removed, k) <==> k in was && k !in now)
            && (Reported(d.versionChanged, k) <==> Versioned(was, now, k))
            && (Reported(d.licenceChanged, k) <==> Relicensed(was, now, k))
            && (forall c :: c in d.versionChanged && c.key == k ==>
                  c.before == SortedSet(was[k].versions) && c.after == SortedSet(now[k].versions))
  {
    var keys := SortedSet(was.Keys + now.Keys);
    AllKeysKnown(was, now);
    hide SortedSet, IsListing, CompareAll, Reported;
    ReportedAdded(keys, was, now, k);
    ReportedRemoved(keys, was, now, k);
    ReportedVersion(keys, was, now, k);
    ReportedLicence(keys, was, now, k);
  }

  lemma ReportedAdded(keys: seq<string>, was: Groups, now: Groups, k: string)
    requires KeysKnown(keys, was, now)
    ensures Reported(CompareAll(keys, was, now).added, k) <==> k in keys && k !in was
  {
    hide SortedSet, IsListing, CompareAll;
    var cs := CompareAll(keys, was, now).added;
    if c :| c in cs && c.key == k {
      AddedExactly(keys, was, now, c);
    }
    if k in keys && k !in was {
      AddedExactly(keys, was, now, Change(k, now[k].name, [], SortedSet(now[k].versions)));
    }
  }

  lemma ReportedRemoved(keys: seq<string>, was: Groups, now: Groups, k: string)
    requires KeysKnown(keys, was, now)
    ensures Reported(CompareAll(keys, was, now).removed, k) <==> k in keys && k !in now
  {
    hide SortedSet, IsListing, CompareAll;
    var cs := CompareAll(keys, was, now).removed;
    if c :| c in cs && c.key == k {
      RemovedExactly(keys, was, now, c);
    }
    if k in keys && k !in now {
      RemovedExactly(keys, was, now, Change(k, was[k].name, SortedSet(was[k].versions), []));
    }
  }

  lemma ReportedVersion(keys: seq<string>, was: Groups, now: Groups, k: string)
    requires KeysKnown(keys, was, now)
    ensures var cs := CompareAll(keys, was, now).versionChanged;
            && (Reported(cs, k) <==> k in keys && Versioned(was, now, k))
            && (forall c :: c in cs && c.key == k ==>
                  && k in was && k in now
                  && c.before == SortedSet(was[k].versions) && c.after == SortedSet(now[k].versions))
  {
    hide SortedSet, IsListing, CompareAll;
    var cs := CompareAll(keys, was, now).versionChanged;
    forall c | c in cs && c.key == k
      ensures k in keys && Versioned(was, now, k)
      ensures c.before == SortedSet(was[k].versions) && c.after == SortedSet(now[k].versions)
    {
      VersionChangedExactly(keys, was, now, c);
    }
    if k in keys && Versioned(was, now, k) {
      VersionChangedExactly(
        keys, was, now, Change(k, now[k].name, SortedSet(was[k].versions), SortedSet(now[k].versions)));
    }
  }

  lemma ReportedLicence(keys: seq<string>, was: Groups, now: Groups, k: string)
    requires KeysKnown(keys, was, now)
    ensures Reported(CompareAll(keys, was, now).licenceChanged, k) <==> k in keys && Relicensed(was, now, k)
  {
    hide SortedSet, IsListing, CompareAll;
    var cs := CompareAll(keys, was, now).licenceChanged;
    if c :| c in cs && c.key == k {
      LicenceChangedExactly(keys, was, now, c);
    }
    if k in keys && Relicensed(was, now, k) {
      LicenceChangedExactly(
        keys, was, now, Change(k, now[k].name, SortedSet(was[k].licences), SortedSet(now[k].licences)));
    }
  }

  /**
   The comparison of two exports reads like the two inventories side by side. A package is added
   exactly when only the second has it, removed when only the first has it, changed in version
   or licence when both have it with other versions or licences; an upgrade is none of the others.
   */
  lemma DiffOfExports(before: seq<Component>, after: seq<Component>, repr: Json -> string, e: Ecosystem, n: string)
    requires forall i :: 0 <= i < |before| ==> Exportable(before[i])
    requires forall i :: 0 <= i < |after| ==> Exportable(after[i])
    requires Latin1(n)
    ensures var r := DiffOf(Document(before), Document(after), repr);
            var k, vb, va := PackageKey(e, n), PackageVersions(before, e, n), PackageVersions(after, e, n);
            && r.Ok?
            && (Reported(r.value.added, k) <==> vb == {} && va != {})
            && (Reported(r.value.removed, k) <==> vb != {} && va == {})
            && (Reported(r.value.versionChanged, k) <==> vb != {} && va != {} && vb != va)
            && (Reported(r.value.licenceChanged, k)
                <==> vb != {} && va != {} && PackageLicences(before, e, n) != PackageLicences(after, e, n))
            && (forall c :: c in r.value.versionChanged && c.key == k ==>
                  c.before == SortedSet(vb) && c.after == SortedSet(va))
  {
    ExportsAreSummarised(before, repr);
    ExportsAreSummarised(after, repr);
    DocumentGroups(before, repr);
    DocumentGroups(after, repr);
    var was, now := GroupAll(ExportedAll(before), repr).value, GroupAll(ExportedAll(after), repr).value;
    hide GroupAll, Exportable, Compared, PackageKey, PackageVersions, PackageLicences, GroupsOf, Reported,
        SortedSet, Document;
    assert SummarisesPackage(was, before, e, n) && SummarisesPackage(now, after, e, n);
    ReportedExactly(was, now, PackageKey(e, n));
  }

  lemma DocumentGroups(inventory: seq<Component>, repr: Json -> string)
    ensures GroupsOf(Document(inventory), repr) == GroupAll(ExportedAll(inventory), repr)
  {
    hide GroupAll, ExportedAll;
  }
}
