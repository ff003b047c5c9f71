/**
 What a comparison reads out of any CycloneDX document (reporting/sbom_diff.py): which components fall
 under one key, with which versions and licences, and how a Package URL is cut.
 */
module SbomDocuments {
  import opened Options
  import opened Order
  import opened Purl
  import opened SbomDiff
  import opened Strings = Text

  // ----- Package URLs

  /** A Package URL without qualifiers and subpath. */
  predicate Unqualified(s: string) {
    '#' !in s && '?' !in s
  }

  lemma CutAt(s: string, rest: string, c: char)
    requires c !in s && (rest == "" || rest[0] == c)
    ensures Before(s + rest, c) == s
  {
    if rest == "" {
      assert s + rest == s;
      NothingBefore(s, c);
    } else {
      assert (s + rest)[..|s|] == s;
      FirstIs(s + rest, c, |s|);
    }
  }

  lemma CutQualifiers(s: string, rest: string)
    requires Unqualified(s) && (rest == "" || rest[0] == '?' || rest[0] == '#')
    ensures Before(Before(s + rest, '#'), '?') == s
  {
    if rest == "" || rest[0] == '#' {
      CutAt(s, rest, '#');
      NothingBefore(s, '?');
    } else {
      var k := IndexOf(s + rest, '#');
      HashIsBehind(s, rest);
      hide IndexOf;
      var kept := (s + rest)[..k];
      assert kept == s + rest[..k - |s|];
      CutAt(s, rest[..k - |s|], '?');
    }
  }

  lemma HashIsBehind(s: string, rest: string)
    requires '#' !in s && rest != "" && rest[0] == '?'
    ensures |s| < IndexOf(s + rest, '#') <= |s + rest|
  {
    var k := IndexOf(s + rest, '#');
    hide IndexOf;
    if k < |s + rest| {
      assert (s + rest)[k] == '#';
      assert forall i :: 0 <= i < |s| ==> (s + rest)[i] == s[i];
      assert (s + rest)[|s|] == '?';
    }
  }

  /** The cut, once the pieces are known. */
  lemma SplitByParts(purl: string, base: string, path: string, tail: string)
    requires Before(Before(purl, '#'), '?') == base && path != ""
    requires LastIndexOf(base, '/') == |path| && base[|path| + 1..] == tail && base[..|path|] == path
    ensures var at := IndexOf(tail, '@');
            SplitPurl(purl) == (path + "/" + tail[..at], if at < |tail| then tail[at + 1..] else "")
  {
    hide IndexOf, LastIndexOf, Before;
  }

  lemma LastSegment(path: string, tail: string)
    requires '/' !in tail
    ensures var base := path + "/" + tail;
            LastIndexOf(base, '/') == |path| && base[|path| + 1..] == tail && base[..|path|] == path
  {
    var base := path + "/" + tail;
    assert base[|path| + 1..] == tail;
    LastIs(base, '/', |path|);
  }

  lemma AtTheAt(segment: string, version: string)
    requires '@' !in segment
    ensures IndexOf(segment, '@') == |segment|
    ensures var tail := segment + ("@" + version);
            IndexOf(tail, '@') == |segment| && tail[..|segment|] == segment && tail[|segment| + 1..] == version
  {
    hide *;
    NothingBefore(segment, '@');
    AroundTheAt(segment, version);
    FirstIs(segment + ("@" + version), '@', |segment|);
  }

  lemma AroundTheAt(segment: string, version: string)
    ensures var tail := segment + ("@" + version);
            |segment| < |tail| && tail[|segment|] == '@' && tail[..|segment|] == segment
            && tail[|segment| + 1..] == version
  {
  }

  lemma TailIsUnqualified(path: string, tail: string)
    requires Unqualified(path) && Unqualified(tail)
    ensures Unqualified(path + "/" + tail)
  {
  }

  lemma CutAndSplit(path: string, tail: string, rest: string)
    requires Unqualified(path) && Unqualified(tail) && path != "" && '/' !in tail
    requires rest == "" || rest[0] == '?' || rest[0] == '#'
    ensures var at := IndexOf(tail, '@');
            SplitPurl(path + "/" + tail + rest)
            == (path + "/" + tail[..at], if at < |tail| then tail[at + 1..] else "")
  {
    TailIsUnqualified(path, tail);
    hide SplitPurl, IndexOf, LastIndexOf, Before, Unqualified;
    CutQualifiers(path + "/" + tail, rest);
    LastSegment(path, tail);
    SplitByParts(path + "/" + tail + rest, path + "/" + tail, path, tail);
  }

  /**
   Only the last segment of a Package URL carries its version, whatever stands in the segments before
   it, a raw `@` included; qualifiers and subpath are dropped.
   */
  lemma PurlIsCut(path: string, segment: string, version: string, rest: string)
    requires Unqualified(path) && Unqualified(segment) && Unqualified(version) && path != ""
    requires '/' !in segment && '@' !in segment && '/' !in version
    requires rest == "" || rest[0] == '?' || rest[0] == '#'
    ensures SplitPurl(path + "/" + (segment + ("@" + version)) + rest) == (path + "/" + segment, version)
    ensures SplitPurl(path + "/" + segment + rest) == (path + "/" + segment, "")
  {
    hide SplitPurl, IndexOf;
    AtTheAt(segment, version);
    CutAndSplit(path, segment, rest);
    assert segment[..|segment|] == segment;
    CutAndSplit(path, segment + ("@" + version), rest);
  }

  /** A component with a Package URL: the version it states itself comes before the one in the URL. */
  lemma IdentityOfPurl(c: map<string, Json>, repr: Json -> string, path: string, segment: string, version: string,
                       rest: string)
    requires "pkg:" <= path && Unqualified(path) && Unqualified(segment) && Unqualified(version)
    requires '/' !in segment && '@' !in segment && '/' !in version
    requires rest == "" || rest[0] == '?' || rest[0] == '#'
    requires "purl" in c && c["purl"] == Text(path + "/" + (segment + ("@" + version)) + rest)
    ensures Identity(c, repr).Ok?
    ensures var (key, shown) := Identity(c, repr).value;
            && key == path + "/" + segment
            && ("version" in c && c["version"].Text? && Strip(c["version"].s) != "" ==>
                  shown == Strip(c["version"].s))
            && ("version" !in c || c["version"] == Null || c["version"] == Text("") ==> shown == version)
  {
    var tail := segment + ("@" + version);
    PurlIsCut(path, segment, version, rest);
    hide *;
    StartsWithPkg(path, tail, rest);
    IdentityByPurl(c, repr, path + "/" + tail + rest);
  }

  lemma StartsWithPkg(path: string, tail: string, rest: string)
    requires "pkg:" <= path
    ensures IsPurl(Text(path + "/" + tail + rest))
  {
    assert (path + "/" + tail + rest)[..4] == path[..4];
  }

  lemma IdentityByPurl(c: map<string, Json>, repr: Json -> string, purl: string)
    requires "purl" in c && c["purl"] == Text(purl) && IsPurl(Text(purl))
    ensures Identity(c, repr).Ok?
    ensures var (key, shown) := Identity(c, repr).value;
            && key == SplitPurl(purl).0
            && ("version" in c && c["version"].Text? && Strip(c["version"].s) != "" ==>
                  shown == Strip(c["version"].s))
            && ("version" !in c || c["version"] == Null || c["version"] == Text("") ==> shown == SplitPurl(purl).1)
  {
    assert Strip("") == "";
    hide SplitPurl, Strip;
    if "version" in c && c["version"].Text? && c["version"].s != "" {
      assert Truthy(c["version"]);
    }
  }

  /** A component without one: its group and name, and an error exactly if the name is blank. */
  lemma IdentityOfName(c: map<string, Json>, repr: Json -> string)
    requires "purl" in c ==> !IsPurl(c["purl"])
    requires ("name" in c ==> c["name"].Text?) && ("group" in c ==> c["group"].Text?)
    ensures Identity(c, repr).Err? <==> "name" !in c || Strip(c["name"].s) == ""
    ensures Identity(c, repr).Err? ==> Identity(c, repr).error == NeitherPurlNorName
    ensures Identity(c, repr).Ok? ==>
              var key, name := Identity(c, repr).value.0, Strip(c["name"].s);
              && ("group" !in c || Strip(c["group"].s) == "" ==> key == "name:" + name)
              && ("group" in c && Strip(c["group"].s) != "" ==>
                    key == "name:" + Strip(c["group"].s) + "/" + name)
  {
  }

  // ----- licences

  /** A licence entry states `text`: as an expression, as an id, or as a name where there is no id. */
  predicate States(entry: Json, text: string) {
    && entry.Object?
    && (|| ("expression" in entry.fields && entry.fields["expression"] == Text(text))
        || ("license" in entry.fields && entry.fields["license"].Object?
            && var l := entry.fields["license"].fields;
               if "id" in l && Truthy(l["id"]) then l["id"] == Text(text)
               else "name" in l && l["name"] == Text(text)))
  }

  lemma LicenceMeaning(entry: Json, licence: string)
    ensures licence in LicenceOf(entry) <==> exists text :: States(entry, text) && licence == Strip(text)
  {
    hide Strip;
    if entry.Object? && "expression" in entry.fields && entry.fields["expression"].Text? {
      assert States(entry, entry.fields["expression"].s);
    }
    if entry.Object? && "license" in entry.fields && entry.fields["license"].Object? {
      var l := entry.fields["license"].fields;
      if "id" in l && Truthy(l["id"]) && l["id"].Text? {
        assert States(entry, l["id"].s);
      } else if !("id" in l && Truthy(l["id"])) && "name" in l && l["name"].Text? {
        assert States(entry, l["name"].s);
      }
    }
  }

  lemma {:induction false} LicencesMembers(entries: seq<Json>, licence: string)
    ensures licence in LicencesOf(entries)
       <==> exists i :: 0 <= i < |entries| && exists text :: States(entries[i], text) && licence == Strip(text)
  {
    hide LicenceOf, States, Strip;
    if entries != [] {
      var n := |entries| - 1;
      LicencesMembers(entries[..n], licence);
      LicenceMeaning(entries[n], licence);
      assert forall i :: 0 <= i < n ==> entries[..n][i] == entries[i];
    }
  }

  // ----- the groups of a document

  predicate IsComponent(c: Json, repr: Json -> string, key: string) {
    c.Object? && Identity(c.fields, repr).Ok? && Identity(c.fields, repr).value.0 == key
  }

  /** The versions of the components of one key. */
  function VersionsOf(components: seq<Json>, repr: Json -> string, key: string): set<string> {
    set i | 0 <= i < |components| && IsComponent(components[i], repr, key)
      :: Identity(components[i].fields, repr).value.1
  }

  /** The first component of a key, by its place. */
  predicate IsFirst(components: seq<Json>, repr: Json -> string, key: string, i: nat) {
    && i < |components| && IsComponent(components[i], repr, key)
    && forall j :: 0 <= j < i ==> !IsComponent(components[j], repr, key)
  }

  /** A licence that some component of the key states. */
  ghost predicate Licensed(components: seq<Json>, repr: Json -> string, key: string, licence: string) {
    exists i, e, text :: && 0 <= i < |components| && IsComponent(components[i], repr, key)
                         && Declares(components[i], e) && States(e, text) && licence == Strip(text)
  }

  /** The component's licence list has the entry. */
  predicate Declares(c: Json, entry: Json) {
    c.Object? && "licenses" in c.fields && c.fields["licenses"].List? && entry in c.fields["licenses"].items
  }

  /** The name a group is shown under: its first component's, or the key where that has none. */
  function ShownName(c: map<string, Json>, repr: Json -> string, key: string): string {
    var name := if "name" in c then Str(c["name"], repr) else "";
    if name != "" then name else key
  }

  lemma ComponentLicences(c: map<string, Json>, licence: string)
    requires Licences(c).Ok?
    ensures licence in Licences(c).value
       <==> exists e, text :: Declares(Object(c), e) && States(e, text) && licence == Strip(text)
  {
    hide States, Strip, Truthy;
    if "licenses" in c && c["licenses"].List? {
      var entries := c["licenses"].items;
      LicencesMembers(entries, licence);
      if e, text :| Declares(Object(c), e) && States(e, text) && licence == Strip(text) {
        var i :| 0 <= i < |entries| && entries[i] == e;
        assert States(entries[i], text);
      }
      if i, text :| 0 <= i < |entries| && States(entries[i], text) && licence == Strip(text) {
        assert Declares(Object(c), entries[i]);
      }
    }
  }

  /** What a group says, in terms of the components of its key. */
  ghost predicate SummarisesKey(groups: Groups, components: seq<Json>, repr: Json -> string, key: string) {
    && (key in groups <==> exists i: nat :: IsFirst(components, repr, key, i))
    && (key in groups ==>
          && groups[key].versions == VersionsOf(components, repr, key)
          && (forall licence :: licence in groups[key].licences <==> Licensed(components, repr, key, licence))
          && forall i: nat :: IsFirst(components, repr, key, i) ==>
               groups[key].name == ShownName(components[i].fields, repr, key))
  }

  /** A key has a group exactly when it has a component, and the groups say what the components do. */
  ghost predicate Summarises(groups: Groups, components: seq<Json>, repr: Json -> string) {
    forall key :: SummarisesKey(groups, components, repr, key)
  }

  lemma FirstSnoc(components: seq<Json>, repr: Json -> string, key: string)
    requires components != []
    ensures var n := |components| - 1;
            && (forall i: nat :: i < n ==>
                  (IsFirst(components, repr, key, i) <==> IsFirst(components[..n], repr, key, i)))
            && (IsFirst(components, repr, key, n)
                <==> IsComponent(components[n], repr, key)
                     && !exists i: nat :: IsFirst(components[..n], repr, key, i))
  {
    hide IsComponent;
    var n := |components| - 1;
    assert forall i :: 0 <= i < n ==> components[..n][i] == components[i];
    if !IsFirst(components, repr, key, n) && IsComponent(components[n], repr, key) {
      var j :| 0 <= j < n && IsComponent(components[j], repr, key);
      var i := FirstUpTo(components[..n], repr, key, j);
    }
  }

  lemma {:induction false} FirstUpTo(components: seq<Json>, repr: Json -> string, key: string, j: nat) returns (i: nat)
    requires j < |components| && IsComponent(components[j], repr, key)
    ensures IsFirst(components, repr, key, i)
    decreases j
  {
    hide IsComponent;
    if k: nat :| k < j && IsComponent(components[k], repr, key) {
      i := FirstUpTo(components, repr, key, k);
    } else {
      i := j;
    }
  }

  lemma VersionsSnoc(components: seq<Json>, repr: Json -> string, key: string, version: string)
    requires components != []
    ensures var n := |components| - 1;
            version in VersionsOf(components, repr, key)
            <==> || version in VersionsOf(components[..n], repr, key)
                 || (IsComponent(components[n], repr, key)
                     && version == Identity(components[n].fields, repr).value.1)
  {
    hide Identity;
    var n := |components| - 1;
    assert forall i :: 0 <= i < n ==> components[..n][i] == components[i];
    if version in VersionsOf(components[..n], repr, key) {
      var i :| 0 <= i < n && IsComponent(components[..n][i], repr, key)
               && Identity(components[..n][i].fields, repr).value.1 == version;
      assert IsComponent(components[i], repr, key);
    }
  }

  lemma LicensedSnoc(components: seq<Json>, repr: Json -> string, key: string, licence: string)
    requires components != []
    ensures var n := |components| - 1;
            Licensed(components, repr, key, licence)
            <==> || Licensed(components[..n], repr, key, licence)
                 || (IsComponent(components[n], repr, key)
                     && exists e, text :: Declares(components[n], e) && States(e, text) && licence == Strip(text))
  {
    hide IsComponent, Declares, States, Strip;
    var n := |components| - 1;
    if Licensed(components[..n], repr, key, licence) {
      var i, e, text :| && 0 <= i < n && IsComponent(components[..n][i], repr, key)
                        && Declares(components[..n][i], e) && States(e, text) && licence == Strip(text);
      assert components[i] == components[..n][i];
    }
    if Licensed(components, repr, key, licence) {
      var i, e, text :| && 0 <= i < |components| && IsComponent(components[i], repr, key)
                        && Declares(components[i], e) && States(e, text) && licence == Strip(text);
      if i < n {
        assert components[..n][i] == components[i];
      }
    }
  }

  /** One more component: its own key's group takes it up, every other group stays. */
  lemma OtherKeyStays(groups: Groups, components: seq<Json>, repr: Json -> string, key: string, more: Groups)
    requires components != [] && SummarisesKey(groups, components[..|components| - 1], repr, key)
    requires !IsComponent(components[|components| - 1], repr, key)
    requires (key in more <==> key in groups) && (key in groups ==> more[key] == groups[key])
    ensures SummarisesKey(more, components, repr, key)
  {
    hide IsComponent, IsFirst, VersionsOf, Licensed, ShownName;
    var n := |components| - 1;
    FirstSnoc(components, repr, key);
    FirstIsInside(components, repr, key);
    FirstIsInside(components[..n], repr, key);
    forall version
      ensures version in VersionsOf(components, repr, key) <==> version in VersionsOf(components[..n], repr, key)
    {
      VersionsSnoc(components, repr, key, version);
    }
    forall licence
      ensures Licensed(components, repr, key, licence) <==> Licensed(components[..n], repr, key, licence)
    {
      LicensedSnoc(components, repr, key, licence);
    }
    assert forall i :: 0 <= i < n ==> components[..n][i] == components[i];
  }

  lemma FirstIsInside(components: seq<Json>, repr: Json -> string, key: string)
    ensures forall i: nat :: IsFirst(components, repr, key, i) ==> i < |components|
  {
  }

  lemma ShownNameOf(c: map<string, Json>, repr: Json -> string, key: string)
    ensures var name := Str(Field(c, "name", Text("")), repr);
            ShownName(c, repr, key) == if name != "" then name else key
  {
  }

  /** The first components are the same, and the last is one exactly if there was none. */
  lemma FirstOfOwnKey(components: seq<Json>, repr: Json -> string, key: string)
    requires components != [] && IsComponent(components[|components| - 1], repr, key)
    ensures exists i: nat :: IsFirst(components, repr, key, i)
    ensures var n := |components| - 1;
            if exists i: nat :: IsFirst(components[..n], repr, key, i)
            then forall i: nat :: IsFirst(components, repr, key, i) ==> i < n && IsFirst(components[..n], repr, key, i)
            else forall i: nat :: IsFirst(components, repr, key, i) ==> i == n
  {
    hide IsComponent, IsFirst;
    var n := |components| - 1;
    FirstSnoc(components, repr, key);
    FirstIsInside(components, repr, key);
    FirstIsInside(components[..n], repr, key);
    if i: nat :| IsFirst(components[..n], repr, key, i) {
      assert IsFirst(components, repr, key, i);
    } else {
      assert IsFirst(components, repr, key, n);
    }
  }

  lemma OwnSets(groups: Groups, components: seq<Json>, repr: Json -> string, key: string, group: Group)
    requires components != [] && SummarisesKey(groups, components[..|components| - 1], repr, key)
    requires var c := components[|components| - 1];
             && IsComponent(c, repr, key) && Licences(c.fields).Ok?
             && var before := if key in groups then groups[key] else Group("", {}, {});
                && group.versions == before.versions + {Identity(c.fields, repr).value.1}
                && group.licences == before.licences + Licences(c.fields).value
    ensures group.versions == VersionsOf(components, repr, key)
    ensures forall licence :: licence in group.licences <==> Licensed(components, repr, key, licence)
  {
    hide IsFirst, ShownName, Licences, Identity;
    var n := |components| - 1;
    NoFirstNothing(components[..n], repr, key);
    hide IsComponent, VersionsOf, Licensed;
    forall version
      ensures version in VersionsOf(components, repr, key) <==> version in group.versions
    {
      VersionsSnoc(components, repr, key, version);
    }
    forall licence
      ensures Licensed(components, repr, key, licence) <==> licence in group.licences
    {
      LicensedSnoc(components, repr, key, licence);
      ComponentLicences(components[n].fields, licence);
    }
  }

  lemma NoFirstNothing(components: seq<Json>, repr: Json -> string, key: string)
    ensures (exists i: nat :: IsFirst(components, repr, key, i))
       || (VersionsOf(components, repr, key) == {}
           && forall licence :: !Licensed(components, repr, key, licence))
  {
    hide IsComponent, IsFirst, Declares, States;
    if j: nat :| j < |components| && IsComponent(components[j], repr, key) {
      var i := FirstUpTo(components, repr, key, j);
    }
  }

  /** The groups with one more component. */
  function WithComponent(groups: Groups, c: map<string, Json>, repr: Json -> string): Groups
    requires Identity(c, repr).Ok? && Licences(c).Ok?
  {
    var id := Identity(c, repr).value;
    Grouped(groups, id.0, id.1, Str(Field(c, "name", Text("")), repr), Licences(c).value)
  }

  lemma WithComponentMeans(groups: Groups, c: map<string, Json>, repr: Json -> string, key: string)
    requires Identity(c, repr).Ok? && Licences(c).Ok?
    ensures var id, more := Identity(c, repr).value, WithComponent(groups, c, repr);
            var before := if id.0 in groups then groups[id.0] else Group("", {}, {});
            && id.0 in more && more[id.0].versions == before.versions + {id.1}
            && more[id.0].licences == before.licences + Licences(c).value
            && more[id.0].name == (if id.0 in groups then groups[id.0].name else ShownName(c, repr, id.0))
            && (key != id.0 ==> (key in more <==> key in groups) && (key in groups ==> more[key] == groups[key]))
  {
    ShownNameOf(c, repr, Identity(c, repr).value.0);
    hide Identity, Licences, Str, Field, ShownName;
  }

  lemma FirstsAreObjects(components: seq<Json>, repr: Json -> string, key: string)
    ensures forall i: nat :: IsFirst(components, repr, key, i) ==> i < |components| && components[i].Object?
  {
  }

  lemma NameOfGroup(groups: Groups, components: seq<Json>, repr: Json -> string, key: string)
    requires SummarisesKey(groups, components, repr, key)
    ensures key in groups <==> exists i: nat :: IsFirst(components, repr, key, i)
    ensures forall i: nat :: key in groups && IsFirst(components, repr, key, i) ==>
              && i < |components| && components[i].Object?
              && groups[key].name == ShownName(components[i].fields, repr, key)
  {
    FirstsAreObjects(components, repr, key);
    hide IsFirst, ShownName, IsComponent, VersionsOf, Licensed;
  }

  lemma OwnName(groups: Groups, components: seq<Json>, repr: Json -> string, key: string, name: string)
    requires components != [] && SummarisesKey(groups, components[..|components| - 1], repr, key)
    requires var c := components[|components| - 1];
             && IsComponent(c, repr, key)
             && name == if key in groups then groups[key].name else ShownName(c.fields, repr, key)
    ensures exists i: nat :: IsFirst(components, repr, key, i)
    ensures forall i: nat :: IsFirst(components, repr, key, i) ==>
              i < |components| && components[i].Object? && name == ShownName(components[i].fields, repr, key)
  {
    hide *;
    var n := |components| - 1;
    NameOfGroup(groups, components[..n], repr, key);
    FirstOfOwnKey(components, repr, key);
    FirstsAreObjects(components, repr, key);
    assert forall i :: 0 <= i < n ==> components[..n][i] == components[i];
  }

  lemma OwnKeyGrows(groups: Groups, components: seq<Json>, repr: Json -> string, key: string, more: Groups)
    requires components != [] && SummarisesKey(groups, components[..|components| - 1], repr, key)
    requires var c := components[|components| - 1];
             && IsComponent(c, repr, key) && Licences(c.fields).Ok? && more == WithComponent(groups, c.fields, repr)
    ensures SummarisesKey(more, components, repr, key)
  {
    var c := components[|components| - 1];
    IsItsKey(c, repr, key);
    hide *;
    WithComponentMeans(groups, c.fields, repr, key);
    OwnName(groups, components, repr, key, more[key].name);
    OwnSets(groups, components, repr, key, more[key]);
    AllTogether(more, components, repr, key);
  }

  lemma IsItsKey(c: Json, repr: Json -> string, key: string)
    requires IsComponent(c, repr, key)
    ensures c.Object? && Identity(c.fields, repr).Ok? && Identity(c.fields, repr).value.0 == key
  {
  }

  lemma AllTogether(groups: Groups, components: seq<Json>, repr: Json -> string, key: string)
    requires key in groups && groups[key].versions == VersionsOf(components, repr, key)
    requires forall licence :: licence in groups[key].licences <==> Licensed(components, repr, key, licence)
    requires exists i: nat :: IsFirst(components, repr, key, i)
    requires forall i: nat :: IsFirst(components, repr, key, i) ==>
               && i < |components| && components[i].Object?
               && groups[key].name == ShownName(components[i].fields, repr, key)
    ensures SummarisesKey(groups, components, repr, key)
  {
    hide IsFirst, ShownName, VersionsOf, Licensed;
  }

  lemma {:induction false} ComponentsSummarised(components: seq<Json>, repr: Json -> string)
    requires GroupAll(components, repr).Ok?
    ensures Summarises(GroupAll(components, repr).value, components, repr)
  {
    hide SummarisesKey, Licences, Identity, WithComponent;
    if components == [] {
      forall key
        ensures SummarisesKey(map[], [], repr, key)
      {
        NothingSummarised(repr, key);
      }
    } else {
      var n := |components| - 1;
      ComponentsSummarised(components[..n], repr);
      var groups, more := GroupAll(components[..n], repr).value, GroupAll(components, repr).value;
      LastComponent(components, repr);
      var own := Identity(components[n].fields, repr).value.0;
      forall key
        ensures SummarisesKey(more, components, repr, key)
      {
        if key == own {
          OwnKeyGrows(groups, components, repr, key, more);
        } else {
          WithComponentMeans(groups, components[n].fields, repr, key);
          OtherKeyStays(groups, components, repr, key, more);
        }
      }
    }
  }

  lemma LastComponent(components: seq<Json>, repr: Json -> string)
    requires components != [] && GroupAll(components, repr).Ok?
    ensures var n := |components| - 1;
            && GroupAll(components[..n], repr).Ok? && components[n].Object?
            && var c := components[n].fields;
               && Identity(c, repr).Ok? && Licences(c).Ok?
               && GroupAll(components, repr).value == WithComponent(GroupAll(components[..n], repr).value, c, repr)
  {
    hide Identity, Licences, Grouped;
  }

  lemma NothingSummarised(repr: Json -> string, key: string)
    ensures SummarisesKey(map[], [], repr, key)
  {
  }

  /**
   The groups of a readable document: one for every key that has a component, with exactly the versions
   and licences of the components of that key, under the name of the first of them.
   */
  lemma DocumentIsSummarised(document: Json, repr: Json -> string)
    requires GroupsOf(document, repr).Ok?
    ensures document.Object? && "bomFormat" in document.fields && document.fields["bomFormat"] == Text("CycloneDX")
    ensures var listed := "components" in document.fields && document.fields["components"].List?;
            Summarises(GroupsOf(document, repr).value,
                       if listed then document.fields["components"].items else [], repr)
  {
    hide GroupAll, Summarises;
    var listed := "components" in document.fields && document.fields["components"].List?;
    EmptyDocument(repr);
    if listed {
      ComponentsSummarised(document.fields["components"].items, repr);
    }
  }

  lemma EmptyDocument(repr: Json -> string)
    ensures GroupAll([], repr) == Ok(map[]) && Summarises(map[], [], repr)
  {
    ComponentsSummarised([], repr);
  }

  /** Component `i` cannot be read, for the reason `e`. */
  ghost predicate Unreadable(c: Json, i: nat, repr: Json -> string, e: Error) {
    if !c.Object? then e == ComponentNotAnObject(i)
    else if Identity(c.fields, repr).Err? then e == Identity(c.fields, repr).error
    else Licences(c.fields).Err? && e == LicensesNotIterable
  }

  lemma LastError(components: seq<Json>, repr: Json -> string)
    requires components != [] && GroupAll(components[..|components| - 1], repr).Ok?
    ensures var n := |components| - 1;
            && (GroupAll(components, repr).Err? ==>
                  Unreadable(components[n], n, repr, GroupAll(components, repr).error))
            && (GroupAll(components, repr).Ok? ==> forall e :: !Unreadable(components[n], n, repr, e))
  {
    hide Identity, Grouped;
    LicencesFailOneWay(components[|components| - 1]);
    hide Licences;
  }

  lemma LicencesFailOneWay(c: Json)
    ensures c.Object? && Licences(c.fields).Err? ==> Licences(c.fields).error == LicensesNotIterable
  {
  }

  lemma ErrorIsKept(components: seq<Json>, repr: Json -> string)
    requires components != [] && GroupAll(components[..|components| - 1], repr).Err?
    ensures GroupAll(components, repr) == GroupAll(components[..|components| - 1], repr)
  {
  }

  /** A document is refused for its first unreadable component, and for no other. */
  lemma {:induction false} FirstErrorWins(components: seq<Json>, repr: Json -> string)
    ensures GroupAll(components, repr).Err? ==>
              exists i: nat :: && i < |components|
                               && Unreadable(components[i], i, repr, GroupAll(components, repr).error)
                               && GroupAll(components[..i], repr).Ok?
    ensures GroupAll(components, repr).Ok? ==>
              forall i: nat, e :: i < |components| ==> !Unreadable(components[i], i, repr, e)
  {
    hide Unreadable, AddComponent;
    if components != [] {
      var n := |components| - 1;
      FirstErrorWins(components[..n], repr);
      assert forall i :: 0 <= i < n ==> components[..n][i] == components[i];
      if GroupAll(components[..n], repr).Err? {
        ErrorIsKept(components, repr);
        var e := GroupAll(components[..n], repr).error;
        var i: nat :| i < n && Unreadable(components[..n][i], i, repr, e) && GroupAll(components[..n][..i], repr).Ok?;
        assert components[..n][..i] == components[..i];
      } else {
        LastError(components, repr);
        hide GroupAll;
      }
    }
  }
}
