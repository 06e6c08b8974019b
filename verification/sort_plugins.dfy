/** The ordering of plugins by name and tag relations (`sortPlugins`).

    Every plugin name is related to itself, and every tag to the names of the
    plugins carrying it. A plugin's `before` and `after` entries expand to the
    names related to them, and the expanded declarations are handed to the
    dependency graph, keyed by plugin name. */
module SortPlugins {
  import opened Wrappers
  import opened Seqs
  import DagMap
  import JsValues

  /** The `raw` description of a wrapped plugin; an absent list is empty. */
  datatype Plugin = Plugin(name: string, tags: seq<string>, before: seq<string>, after: seq<string>)

  /** What stops the sort: a plugin without a name (the graph refuses an
      empty key), a cycle among the expanded declarations, or, as written, a
      word inherited from `Object.prototype` used where a list is expected. */
  datatype SortError = MissingName | Cycle(keys: seq<string>) | NotAList(word: string)

  type Relations = map<string, seq<string>>

  /** The names related to `x`, empty when nothing is. */
  function Related(rel: Relations, x: string): seq<string> {
    if x in rel then rel[x] else []
  }

  function Relate(rel: Relations, x: string, name: string): (r: Relations)
    ensures Related(r, x) == Related(rel, x) + [name]
    ensures forall y :: y != x ==> Related(r, y) == Related(rel, y)
    ensures forall y :: y in r <==> y in rel || y == x
  {
    rel[x := Related(rel, x) + [name]]
  }

  /** Relates every tag in `tags`, in order, to `name`. */
  function RelateTags(rel: Relations, tags: seq<string>, name: string): Relations
    decreases |tags|
  {
    if |tags| == 0 then rel else RelateTags(Relate(rel, tags[0], name), tags[1..], name)
  }

  /** The relation map, built plugin by plugin. */
  function BuildRelations(plugins: seq<Plugin>): Relations
    decreases |plugins|
  {
    if |plugins| == 0 then map[]
    else
      var p := plugins[|plugins| - 1];
      RelateTags(Relate(BuildRelations(plugins[..|plugins| - 1]), p.name, p.name), p.tags, p.name)
  }

  /** The reference relation of one word, read off the plugins directly: each
      plugin contributes its name once if the word is its name, and once per
      occurrence of the word among its tags. */
  ghost function ExpectedRelated(plugins: seq<Plugin>, x: string): seq<string>
    decreases |plugins|
  {
    if |plugins| == 0 then []
    else
      var p := plugins[|plugins| - 1];
      ExpectedRelated(plugins[..|plugins| - 1], x)
        + (if p.name == x then [p.name] else [])
        + Repeat(p.name, Count(p.tags, x))
  }

  ghost predicate Carries(p: Plugin, x: string) {
    p.name == x || x in p.tags
  }

  lemma {:induction false} RelateTagsSpec(rel: Relations, tags: seq<string>, name: string, x: string)
    ensures Related(RelateTags(rel, tags, name), x) == Related(rel, x) + Repeat(name, Count(tags, x))
    ensures x in RelateTags(rel, tags, name) <==> x in rel || x in tags
    decreases |tags|
  {
    if |tags| > 0 {
      RelateTagsSpec(Relate(rel, tags[0], name), tags[1..], name, x);
      assert tags == [tags[0]] + tags[1..];
      if tags[0] == x {
        assert [name] + Repeat(name, Count(tags[1..], x)) == Repeat(name, Count(tags, x));
      }
    }
  }

  /** One plugin's step of the fold adds its name if it is `x`, then its name
      once per occurrence of `x` among its tags. */
  lemma BuildRelationsStep(plugins: seq<Plugin>, x: string)
    requires |plugins| > 0
    ensures var p := plugins[|plugins| - 1];
      Related(BuildRelations(plugins), x) ==
        Related(BuildRelations(plugins[..|plugins| - 1]), x)
          + (if p.name == x then [p.name] else [])
          + Repeat(p.name, Count(p.tags, x))
  {
    var p := plugins[|plugins| - 1];
    var named := Relate(BuildRelations(plugins[..|plugins| - 1]), p.name, p.name);
    RelateTagsSpec(named, p.tags, p.name, x);
  }

  /** The fold over the plugins builds exactly the reference relations. */
  lemma {:induction false} BuildRelationsSpec(plugins: seq<Plugin>, x: string)
    ensures Related(BuildRelations(plugins), x) == ExpectedRelated(plugins, x)
    decreases |plugins|
  {
    if |plugins| > 0 {
      BuildRelationsSpec(plugins[..|plugins| - 1], x);
      BuildRelationsStep(plugins, x);
    }
  }

  /** The last plugin adds `name` to the relations of `x` exactly when it is
      named `name` and carries `x`. */
  lemma ExpectedRelatedLast(plugins: seq<Plugin>, x: string, name: string)
    requires |plugins| > 0
    ensures var p := plugins[|plugins| - 1];
      name in ExpectedRelated(plugins, x) <==>
        name in ExpectedRelated(plugins[..|plugins| - 1], x) || (p.name == name && Carries(p, x))
  {
    var p := plugins[|plugins| - 1];
    CountPositive(p.tags, x);
    if Count(p.tags, x) > 0 {
      assert Repeat(p.name, Count(p.tags, x))[0] == p.name;
    }
  }

  /** A word is related to exactly the names of the plugins carrying it. */
  lemma {:induction false} ExpectedRelatedMembers(plugins: seq<Plugin>, x: string, name: string)
    ensures name in ExpectedRelated(plugins, x) <==>
      exists i :: 0 <= i < |plugins| && plugins[i].name == name && Carries(plugins[i], x)
    decreases |plugins|
  {
    if |plugins| > 0 {
      var n := |plugins| - 1;
      var init := plugins[..n];
      ExpectedRelatedMembers(init, x, name);
      ExpectedRelatedLast(plugins, x, name);
      if exists i :: 0 <= i < |plugins| && plugins[i].name == name && Carries(plugins[i], x) {
        var i :| 0 <= i < |plugins| && plugins[i].name == name && Carries(plugins[i], x);
        if i < n {
          assert init[i] == plugins[i];
        }
      }
      if exists i :: 0 <= i < n && init[i].name == name && Carries(init[i], x) {
        var i :| 0 <= i < n && init[i].name == name && Carries(init[i], x);
        assert plugins[i] == init[i];
      }
    }
  }

  /** The expansion of `before`/`after` entries: the names related to each
      entry in turn; an entry nothing is related to is dropped. */
  function Expand(rel: Relations, xs: seq<string>): (r: seq<string>)
    ensures forall name :: name in r <==> exists i :: 0 <= i < |xs| && xs[i] in rel && name in rel[xs[i]]
    decreases |xs|
  {
    if |xs| == 0 then []
    else
      var head := if xs[0] in rel then rel[xs[0]] else [];
      var r := head + Expand(rel, xs[1..]);
      assert forall name :: name in r <==> exists i :: 0 <= i < |xs| && xs[i] in rel && name in rel[xs[i]] by {
        forall name | name in r ensures exists i :: 0 <= i < |xs| && xs[i] in rel && name in rel[xs[i]] {
          if name !in head {
            var i :| 0 <= i < |xs| - 1 && xs[1..][i] in rel && name in rel[xs[1..][i]];
            assert xs[i + 1] == xs[1..][i];
          }
        }
        forall name | exists i :: 0 <= i < |xs| && xs[i] in rel && name in rel[xs[i]] ensures name in r {
          var i :| 0 <= i < |xs| && xs[i] in rel && name in rel[xs[i]];
          if i > 0 {
            assert xs[1..][i - 1] == xs[i];
          }
        }
      }
      r
  }

  /** A word's relations in the built map name exactly the plugins carrying it. */
  lemma RelatedMembers(plugins: seq<Plugin>, x: string, name: string)
    ensures name in Related(BuildRelations(plugins), x) <==>
      exists k :: 0 <= k < |plugins| && plugins[k].name == name && Carries(plugins[k], x)
  {
    BuildRelationsSpec(plugins, x);
    ExpectedRelatedMembers(plugins, x, name);
  }

  /** `rel` relates every word to exactly the names of the plugins carrying it. */
  ghost predicate RelatesCarriers(rel: Relations, plugins: seq<Plugin>) {
    forall x, name :: name in Related(rel, x) <==>
      exists k :: 0 <= k < |plugins| && plugins[k].name == name && Carries(plugins[k], x)
  }

  lemma BuiltRelatesCarriers(plugins: seq<Plugin>)
    ensures RelatesCarriers(BuildRelations(plugins), plugins)
  {
    forall x, name ensures name in Related(BuildRelations(plugins), x) <==>
      exists k :: 0 <= k < |plugins| && plugins[k].name == name && Carries(plugins[k], x)
    {
      RelatedMembers(plugins, x, name);
    }
  }

  lemma ExpandedIsRelated(rel: Relations, plugins: seq<Plugin>, xs: seq<string>, name: string)
    requires RelatesCarriers(rel, plugins) && name in Expand(rel, xs)
    ensures exists i, k :: 0 <= i < |xs| && 0 <= k < |plugins| && plugins[k].name == name && Carries(plugins[k], xs[i])
  {
    var i :| 0 <= i < |xs| && xs[i] in rel && name in rel[xs[i]];
    assert name in Related(rel, xs[i]);
    var k :| 0 <= k < |plugins| && plugins[k].name == name && Carries(plugins[k], xs[i]);
  }

  lemma RelatedIsExpanded(rel: Relations, plugins: seq<Plugin>, xs: seq<string>, i: nat, k: nat)
    requires RelatesCarriers(rel, plugins)
    requires i < |xs| && k < |plugins| && Carries(plugins[k], xs[i])
    ensures plugins[k].name in Expand(rel, xs)
  {
    assert plugins[k].name in Related(rel, xs[i]);
    assert xs[i] in rel && plugins[k].name in rel[xs[i]];
  }

  /** An expanded entry names exactly the plugins related to some entry. */
  lemma ExpandMembers(plugins: seq<Plugin>, xs: seq<string>, name: string)
    ensures name in Expand(BuildRelations(plugins), xs) <==>
      exists i, k :: 0 <= i < |xs| && 0 <= k < |plugins| && plugins[k].name == name && Carries(plugins[k], xs[i])
  {
    var rel := BuildRelations(plugins);
    BuiltRelatesCarriers(plugins);
    if name in Expand(rel, xs) {
      ExpandedIsRelated(rel, plugins, xs, name);
    }
    if exists i, k :: 0 <= i < |xs| && 0 <= k < |plugins| && plugins[k].name == name && Carries(plugins[k], xs[i]) {
      var i, k :| 0 <= i < |xs| && 0 <= k < |plugins| && plugins[k].name == name && Carries(plugins[k], xs[i]);
      RelatedIsExpanded(rel, plugins, xs, i, k);
    }
  }

  /** One `add` per plugin: its name, the plugin, and its expanded entries. */
  function PluginEntries(plugins: seq<Plugin>): (r: seq<DagMap.Entry<string, Plugin>>)
    ensures |r| == |plugins|
    ensures forall i :: 0 <= i < |plugins| ==>
      r[i] == DagMap.Entry(plugins[i].name, plugins[i],
                           Expand(BuildRelations(plugins), plugins[i].before),
                           Expand(BuildRelations(plugins), plugins[i].after))
  {
    var rel := BuildRelations(plugins);
    seq(|plugins|, i requires 0 <= i < |plugins| =>
      DagMap.Entry(plugins[i].name, plugins[i], Expand(rel, plugins[i].before), Expand(rel, plugins[i].after)))
  }

  predicate HasUnnamed(plugins: seq<Plugin>) {
    exists i :: 0 <= i < |plugins| && plugins[i].name == ""
  }

  /** `sortPlugins`: the plugins in the graph's visiting order. */
  function SortPlugins(plugins: seq<Plugin>): (r: Result<seq<Plugin>, SortError>)
    ensures r.Err? <==> HasUnnamed(plugins) || DagMap.HasKeyCycle(DagMap.Edges(PluginEntries(plugins)))
    ensures r.Ok? ==> DagMap.KeyOrder(PluginEntries(plugins)).Ok?
  {
    if HasUnnamed(plugins) then Err(MissingName)
    else
      match DagMap.Each(PluginEntries(plugins))
      case Ok(values) => Ok(values)
      case Err(c) => Err(Cycle(c))
  }

  /** The keys the `add` calls mention are exactly the plugin names. */
  lemma MentionedAreNames(plugins: seq<Plugin>, name: string)
    ensures name in DagMap.Mentioned(PluginEntries(plugins)) <==> exists k :: 0 <= k < |plugins| && plugins[k].name == name
  {
    var es := PluginEntries(plugins);
    if name in DagMap.Mentioned(es) {
      var i :| 0 <= i < |es| && DagMap.Mentions(es[i], name);
      if name in es[i].before {
        ExpandMembers(plugins, plugins[i].before, name);
      } else if name in es[i].after {
        ExpandMembers(plugins, plugins[i].after, name);
      }
    }
    if exists k :: 0 <= k < |plugins| && plugins[k].name == name {
      var k :| 0 <= k < |plugins| && plugins[k].name == name;
      assert DagMap.Mentions(es[k], name);
    }
  }

  /** Plugin `a` runs before plugin `b`: their names are visited in that order. */
  ghost predicate NameRunsBefore(plugins: seq<Plugin>, a: string, b: string) {
    && DagMap.KeyOrder(PluginEntries(plugins)).Ok?
    && a in DagMap.KeyOrder(PluginEntries(plugins)).value
    && b in DagMap.KeyOrder(PluginEntries(plugins)).value
    && IndexOf(DagMap.KeyOrder(PluginEntries(plugins)).value, a) < IndexOf(DagMap.KeyOrder(PluginEntries(plugins)).value, b)
  }

  lemma EdgeHonoured(plugins: seq<Plugin>, a: nat, b: nat)
    requires DagMap.KeyOrder(PluginEntries(plugins)).Ok? && a < |plugins| && b < |plugins|
    requires DagMap.Edge(plugins[a].name, plugins[b].name) in DagMap.Edges(PluginEntries(plugins))
    ensures NameRunsBefore(plugins, plugins[a].name, plugins[b].name)
  {
    var order := DagMap.KeyOrder(PluginEntries(plugins)).value;
    MentionedAreNames(plugins, plugins[a].name);
    MentionedAreNames(plugins, plugins[b].name);
    var i, j := IndexOf(order, plugins[a].name), IndexOf(order, plugins[b].name);
    assert DagMap.Edge(order[i], order[j]) in DagMap.Edges(PluginEntries(plugins));
  }

  /** A plugin listing `x` in `before` runs before every plugin named or
      tagged `x`. */
  lemma BeforeEntryHonoured(plugins: seq<Plugin>, a: nat, b: nat, x: string)
    requires SortPlugins(plugins).Ok? && a < |plugins| && b < |plugins|
    requires x in plugins[a].before && Carries(plugins[b], x)
    ensures NameRunsBefore(plugins, plugins[a].name, plugins[b].name)
  {
    var es := PluginEntries(plugins);
    var i := IndexOf(plugins[a].before, x);
    ExpandMembers(plugins, plugins[a].before, plugins[b].name);
    DagMap.DeclaredEdge(es, a, DagMap.Edge(plugins[a].name, plugins[b].name));
    EdgeHonoured(plugins, a, b);
  }

  /** A plugin listing `x` in `after` runs after every plugin named or
      tagged `x`. */
  lemma AfterEntryHonoured(plugins: seq<Plugin>, a: nat, b: nat, x: string)
    requires SortPlugins(plugins).Ok? && a < |plugins| && b < |plugins|
    requires x in plugins[a].after && Carries(plugins[b], x)
    ensures NameRunsBefore(plugins, plugins[b].name, plugins[a].name)
  {
    var es := PluginEntries(plugins);
    var i := IndexOf(plugins[a].after, x);
    ExpandMembers(plugins, plugins[a].after, plugins[b].name);
    DagMap.DeclaredEdge(es, a, DagMap.Edge(plugins[b].name, plugins[a].name));
    EdgeHonoured(plugins, b, a);
  }

  /** A plugin that lists one of its own tags, or its own name, in `before`
      or `after` relates to itself and makes the sort fail. */
  lemma SelfReferenceFails(plugins: seq<Plugin>, a: nat, x: string)
    requires a < |plugins|
    requires (x in plugins[a].before || x in plugins[a].after) && Carries(plugins[a], x)
    ensures SortPlugins(plugins).Err?
  {
    var es := PluginEntries(plugins);
    var name := plugins[a].name;
    if x in plugins[a].before {
      ExpandMembers(plugins, plugins[a].before, name);
    } else {
      ExpandMembers(plugins, plugins[a].after, name);
    }
    DagMap.DeclaredEdge(es, a, DagMap.Edge(name, name));
    DagMap.TwoCycleFails(es, name, name);
  }

  ghost predicate DistinctNames(plugins: seq<Plugin>) {
    forall i, j :: 0 <= i < j < |plugins| ==> plugins[i].name != plugins[j].name
  }

  /** With distinct names, every plugin is the value stored under its name. */
  lemma ValueOfName(plugins: seq<Plugin>, k: nat)
    requires DistinctNames(plugins) && k < |plugins|
    ensures DagMap.ValueOf(PluginEntries(plugins), plugins[k].name) == Some(plugins[k])
  {
    var es := PluginEntries(plugins);
    var name := plugins[k].name;
    assert es[k].key == name;
    var r := DagMap.ValueOf(es, name);
    var i :| 0 <= i < |es| && es[i].key == name && es[i].value == r.value;
    assert es[i].key == plugins[i].name && es[i].value == plugins[i];
    SameNameSameIndex(plugins, i, k);
  }

  lemma SameNameSameIndex(plugins: seq<Plugin>, i: nat, k: nat)
    requires DistinctNames(plugins) && i < |plugins| && k < |plugins|
    requires plugins[i].name == plugins[k].name
    ensures i == k
  {
  }

  function Names(plugins: seq<Plugin>): (r: seq<string>)
    ensures |r| == |plugins|
    ensures forall k :: 0 <= k < |plugins| ==> r[k] == plugins[k].name
    ensures DistinctNames(plugins) ==> Distinct(r)
  {
    seq(|plugins|, k requires 0 <= k < |plugins| => plugins[k].name)
  }

  /** With distinct names, the visiting order lists every name once. */
  lemma OrderListsNames(plugins: seq<Plugin>)
    requires DistinctNames(plugins) && DagMap.KeyOrder(PluginEntries(plugins)).Ok?
    ensures var order := DagMap.KeyOrder(PluginEntries(plugins)).value;
      && |order| == |plugins|
      && forall name :: name in order <==> exists k :: 0 <= k < |plugins| && plugins[k].name == name
  {
    var order := DagMap.KeyOrder(PluginEntries(plugins)).value;
    var names := Names(plugins);
    forall name ensures name in order <==> exists k :: 0 <= k < |plugins| && plugins[k].name == name {
      MentionedAreNames(plugins, name);
    }
    forall name ensures name in order <==> name in names {
      if name in names {
        var k :| 0 <= k < |names| && names[k] == name;
      }
    }
    DistinctSameElementsLength(order, names);
  }

  /** With distinct names, the result holds at each position the plugin whose
      name is visited there. */
  lemma ResultFollowsOrder(plugins: seq<Plugin>)
    requires DistinctNames(plugins) && SortPlugins(plugins).Ok?
    ensures var order := DagMap.KeyOrder(PluginEntries(plugins)).value;
      && |SortPlugins(plugins).value| == |order|
      && forall i, k :: 0 <= i < |order| && 0 <= k < |plugins| && plugins[k].name == order[i] ==>
           SortPlugins(plugins).value[i] == plugins[k]
  {
    var es := PluginEntries(plugins);
    var order := DagMap.KeyOrder(es).value;
    OrderListsNames(plugins);
    forall name | name in order ensures DagMap.ValueOf(es, name).Some? {
      var k :| 0 <= k < |plugins| && plugins[k].name == name;
      ValueOfName(plugins, k);
    }
    DagMap.ValuesAllAdded(es, order);
    forall i, k | 0 <= i < |order| && 0 <= k < |plugins| && plugins[k].name == order[i]
      ensures SortPlugins(plugins).value[i] == plugins[k]
    {
      ValueOfName(plugins, k);
    }
  }

  /** A result that holds, at each position of a duplicate-free listing of
      the names, the plugin of that name is a permutation of the plugins. */
  lemma PermutationByNames(plugins: seq<Plugin>, order: seq<string>, r: seq<Plugin>)
    requires DistinctNames(plugins) && Distinct(order)
    requires |order| == |plugins| && |r| == |order|
    requires forall name :: name in order <==> exists k :: 0 <= k < |plugins| && plugins[k].name == name
    requires forall i, k :: 0 <= i < |order| && 0 <= k < |plugins| && plugins[k].name == order[i] ==> r[i] == plugins[k]
    ensures |r| == |plugins| && Distinct(r)
    ensures forall p :: p in r <==> p in plugins
  {
    forall p | p in r ensures p in plugins {
      var i :| 0 <= i < |r| && r[i] == p;
      assert order[i] in order;
      var k :| 0 <= k < |plugins| && plugins[k].name == order[i];
    }
    forall p | p in plugins ensures p in r {
      var k :| 0 <= k < |plugins| && plugins[k] == p;
      var i := IndexOf(order, p.name);
    }
    forall i, j | 0 <= i < j < |r| ensures r[i] != r[j] {
      assert order[i] in order && order[j] in order;
      var ki :| 0 <= ki < |plugins| && plugins[ki].name == order[i];
      var kj :| 0 <= kj < |plugins| && plugins[kj].name == order[j];
    }
  }

  /** With distinct names, a successful sort returns each plugin exactly once. */
  lemma SortPluginsPermutes(plugins: seq<Plugin>)
    requires DistinctNames(plugins) && SortPlugins(plugins).Ok?
    ensures var r := SortPlugins(plugins).value;
      && |r| == |plugins| && Distinct(r)
      && (forall p :: p in r <==> p in plugins)
  {
    var order := DagMap.KeyOrder(PluginEntries(plugins)).value;
    OrderListsNames(plugins);
    ResultFollowsOrder(plugins);
    PermutationByNames(plugins, order, SortPlugins(plugins).value);
  }

  // The relation map as written is a plain object, so a word `proto` names
  // (the names plain objects inherit: `JsValues.InheritedNames` in an
  // environment that leaves `Object.prototype` alone) and that is not yet
  // related finds a built-in member instead of a list.

  /** No word of `rel` is an inherited name: what the map as written can
      hold, since relating such a word throws. */
  ghost predicate OwnWords(proto: set<string>, rel: Relations) {
    forall x :: x in rel ==> x !in proto
  }

  /** `relations[x] = relations[x] || []` then `push` as written: an inherited
      word keeps the built-in member it finds, which has no `push`. */
  function RelateAsWritten(proto: set<string>, rel: Relations, x: string, name: string): (r: Result<Relations, SortError>)
    ensures r.Err? <==> x !in rel && x in proto
    ensures r.Err? ==> r.error == NotAList(x)
    ensures r.Ok? ==> r.value == Relate(rel, x, name)
  {
    if x !in rel && x in proto then Err(NotAList(x)) else Ok(Relate(rel, x, name))
  }

  function RelateTagsAsWritten(proto: set<string>, rel: Relations, tags: seq<string>, name: string): (r: Result<Relations, SortError>)
    ensures r.Err? ==> r.error.NotAList?
    decreases |tags|
  {
    if |tags| == 0 then Ok(rel)
    else
      var next :- RelateAsWritten(proto, rel, tags[0], name);
      RelateTagsAsWritten(proto, next, tags[1..], name)
  }

  function BuildRelationsAsWritten(proto: set<string>, plugins: seq<Plugin>): (r: Result<Relations, SortError>)
    ensures r.Err? ==> r.error.NotAList?
    decreases |plugins|
  {
    if |plugins| == 0 then Ok(map[])
    else
      var p := plugins[|plugins| - 1];
      var rel :- BuildRelationsAsWritten(proto, plugins[..|plugins| - 1]);
      var named :- RelateAsWritten(proto, rel, p.name, p.name);
      RelateTagsAsWritten(proto, named, p.tags, p.name)
  }

  /** The expansion as written: an entry nothing is related to but which is
      an inherited name is truthy, and spreading it throws. */
  function ExpandAsWritten(proto: set<string>, rel: Relations, xs: seq<string>): (r: Result<seq<string>, SortError>)
    ensures r.Err? ==> r.error.NotAList?
    decreases |xs|
  {
    if |xs| == 0 then Ok([])
    else if xs[0] !in rel && xs[0] in proto then Err(NotAList(xs[0]))
    else
      var rest :- ExpandAsWritten(proto, rel, xs[1..]);
      Ok((if xs[0] in rel then rel[xs[0]] else []) + rest)
  }

  /** The `add` calls as written, plugin by plugin: `before`, then `after`. */
  function EntriesAsWritten(proto: set<string>, rel: Relations, plugins: seq<Plugin>): (r: Result<seq<DagMap.Entry<string, Plugin>>, SortError>)
    ensures r.Err? ==> r.error.NotAList?
    decreases |plugins|
  {
    if |plugins| == 0 then Ok([])
    else
      var init :- EntriesAsWritten(proto, rel, plugins[..|plugins| - 1]);
      var p := plugins[|plugins| - 1];
      var before :- ExpandAsWritten(proto, rel, p.before);
      var after :- ExpandAsWritten(proto, rel, p.after);
      Ok(init + [DagMap.Entry(p.name, p, before, after)])
  }

  /** `sortPlugins` as written. */
  function SortPluginsAsWritten(proto: set<string>, plugins: seq<Plugin>): (r: Result<seq<Plugin>, SortError>)
  {
    var rel :- BuildRelationsAsWritten(proto, plugins);
    var entries :- EntriesAsWritten(proto, rel, plugins);
    if HasUnnamed(plugins) then Err(MissingName)
    else
      match DagMap.Each(entries)
      case Ok(values) => Ok(values)
      case Err(c) => Err(Cycle(c))
  }

  lemma {:induction false} RelateTagsAsWrittenSpec(proto: set<string>, rel: Relations, tags: seq<string>, name: string)
    requires OwnWords(proto, rel)
    ensures RelateTagsAsWritten(proto, rel, tags, name).Err? <==> exists t :: t in tags && t in proto
    ensures RelateTagsAsWritten(proto, rel, tags, name).Ok? ==>
      RelateTagsAsWritten(proto, rel, tags, name).value == RelateTags(rel, tags, name) && OwnWords(proto, RelateTags(rel, tags, name))
    decreases |tags|
  {
    if |tags| > 0 {
      if tags[0] !in proto {
        RelateTagsAsWrittenSpec(proto, Relate(rel, tags[0], name), tags[1..], name);
        assert forall t :: t in tags <==> t == tags[0] || t in tags[1..];
      }
    }
  }

  /** A plugin named or tagged with an inherited name. */
  ghost predicate CarriesInherited(proto: set<string>, p: Plugin) {
    exists x :: x in proto && Carries(p, x)
  }

  /** As written, building the relations throws exactly when some plugin is
      named or tagged with an inherited name, and otherwise builds the map
      the own-words model builds. */
  lemma {:induction false} BuildRelationsAsWrittenSpec(proto: set<string>, plugins: seq<Plugin>)
    ensures BuildRelationsAsWritten(proto, plugins).Err? <==> exists k :: 0 <= k < |plugins| && CarriesInherited(proto, plugins[k])
    ensures BuildRelationsAsWritten(proto, plugins).Ok? ==>
      BuildRelationsAsWritten(proto, plugins).value == BuildRelations(plugins) && OwnWords(proto, BuildRelations(plugins))
    decreases |plugins|
  {
    if |plugins| > 0 {
      var n := |plugins| - 1;
      var init := plugins[..n];
      BuildRelationsAsWrittenSpec(proto, init);
      BuildRelationsAsWrittenPropagates(proto, plugins);
      if BuildRelationsAsWritten(proto, init).Ok? {
        BuildRelationsAsWrittenStep(proto, plugins);
      }
      SomeCarriesInherited(proto, plugins);
    }
  }

  lemma SomeCarriesInherited(proto: set<string>, plugins: seq<Plugin>)
    requires |plugins| > 0
    ensures var n := |plugins| - 1;
      (exists k :: 0 <= k < |plugins| && CarriesInherited(proto, plugins[k])) <==>
        (exists k :: 0 <= k < n && CarriesInherited(proto, plugins[..n][k])) || CarriesInherited(proto, plugins[n])
  {
    var n := |plugins| - 1;
    if exists k :: 0 <= k < |plugins| && CarriesInherited(proto, plugins[k]) {
      var k :| 0 <= k < |plugins| && CarriesInherited(proto, plugins[k]);
      if k < n {
        assert plugins[..n][k] == plugins[k];
      }
    }
    if exists k :: 0 <= k < n && CarriesInherited(proto, plugins[..n][k]) {
      var k :| 0 <= k < n && CarriesInherited(proto, plugins[..n][k]);
      assert plugins[k] == plugins[..n][k];
    }
  }

  /** As written, once a plugin throws the later ones are never reached. */
  lemma BuildRelationsAsWrittenPropagates(proto: set<string>, plugins: seq<Plugin>)
    requires |plugins| > 0
    ensures BuildRelationsAsWritten(proto, plugins[..|plugins| - 1]).Err? ==> BuildRelationsAsWritten(proto, plugins).Err?
  {
  }

  /** The last plugin's step as written, from a map the own-words model
      agrees with. */
  lemma BuildRelationsAsWrittenStep(proto: set<string>, plugins: seq<Plugin>)
    requires |plugins| > 0
    requires var init := plugins[..|plugins| - 1];
      && BuildRelationsAsWritten(proto, init) == Ok(BuildRelations(init)) && OwnWords(proto, BuildRelations(init))
    ensures BuildRelationsAsWritten(proto, plugins).Err? <==> CarriesInherited(proto, plugins[|plugins| - 1])
    ensures BuildRelationsAsWritten(proto, plugins).Ok? ==>
      BuildRelationsAsWritten(proto, plugins).value == BuildRelations(plugins) && OwnWords(proto, BuildRelations(plugins))
  {
    var p := plugins[|plugins| - 1];
    if p.name !in proto {
      var named := Relate(BuildRelations(plugins[..|plugins| - 1]), p.name, p.name);
      RelateTagsAsWrittenSpec(proto, named, p.tags, p.name);
      assert CarriesInherited(proto, p) <==> exists t :: t in p.tags && t in proto;
    }
  }

  /** As written, an entry list expands unless it holds an inherited name
      nothing is related to, and then to what the own-words model gives. */
  lemma {:induction false} ExpandAsWrittenSpec(proto: set<string>, rel: Relations, xs: seq<string>)
    requires OwnWords(proto, rel)
    ensures ExpandAsWritten(proto, rel, xs).Err? <==> exists x :: x in xs && x in proto
    ensures ExpandAsWritten(proto, rel, xs).Ok? ==> ExpandAsWritten(proto, rel, xs).value == Expand(rel, xs)
    decreases |xs|
  {
    if |xs| > 0 {
      ExpandAsWrittenSpec(proto, rel, xs[1..]);
      assert forall x :: x in xs <==> x == xs[0] || x in xs[1..];
    }
  }

  /** A plugin whose `before` or `after` lists an inherited name. */
  ghost predicate ListsInherited(proto: set<string>, p: Plugin) {
    exists x :: x in proto && (x in p.before || x in p.after)
  }

  lemma {:induction false} EntriesAsWrittenFails(proto: set<string>, rel: Relations, plugins: seq<Plugin>)
    requires OwnWords(proto, rel)
    ensures EntriesAsWritten(proto, rel, plugins).Err? <==> exists k :: 0 <= k < |plugins| && ListsInherited(proto, plugins[k])
    decreases |plugins|
  {
    if |plugins| > 0 {
      var n := |plugins| - 1;
      var init := plugins[..n];
      EntriesAsWrittenFails(proto, rel, init);
      ExpandAsWrittenSpec(proto, rel, plugins[n].before);
      ExpandAsWrittenSpec(proto, rel, plugins[n].after);
      assert forall k :: 0 <= k < n ==> init[k] == plugins[k];
    }
  }

  lemma {:induction false} EntriesAsWrittenValue(proto: set<string>, rel: Relations, plugins: seq<Plugin>)
    requires OwnWords(proto, rel) && EntriesAsWritten(proto, rel, plugins).Ok?
    ensures var es := EntriesAsWritten(proto, rel, plugins).value;
      && |es| == |plugins|
      && forall i :: 0 <= i < |plugins| ==>
           es[i] == DagMap.Entry(plugins[i].name, plugins[i], Expand(rel, plugins[i].before), Expand(rel, plugins[i].after))
    decreases |plugins|
  {
    if |plugins| > 0 {
      var n := |plugins| - 1;
      EntriesAsWrittenValue(proto, rel, plugins[..n]);
      ExpandAsWrittenSpec(proto, rel, plugins[n].before);
      ExpandAsWrittenSpec(proto, rel, plugins[n].after);
    }
  }

  /** A plugin mentioning an inherited name anywhere. */
  ghost predicate MentionsInherited(proto: set<string>, plugins: seq<Plugin>) {
    exists k :: 0 <= k < |plugins| && (CarriesInherited(proto, plugins[k]) || ListsInherited(proto, plugins[k]))
  }

  lemma MentionsInheritedCases(proto: set<string>, plugins: seq<Plugin>)
    ensures MentionsInherited(proto, plugins) <==>
      (exists k :: 0 <= k < |plugins| && CarriesInherited(proto, plugins[k])) ||
      (exists k :: 0 <= k < |plugins| && ListsInherited(proto, plugins[k]))
  {
  }

  /** As written, the sort throws a type error exactly when some plugin
      mentions an inherited name; otherwise it does what the own-words
      model does. */
  lemma SortPluginsAsWrittenSpec(proto: set<string>, plugins: seq<Plugin>)
    ensures (SortPluginsAsWritten(proto, plugins).Err? && SortPluginsAsWritten(proto, plugins).error.NotAList?) <==> MentionsInherited(proto, plugins)
    ensures !MentionsInherited(proto, plugins) ==> SortPluginsAsWritten(proto, plugins) == SortPlugins(plugins)
  {
    BuildRelationsAsWrittenSpec(proto, plugins);
    MentionsInheritedCases(proto, plugins);
    if BuildRelationsAsWritten(proto, plugins).Ok? {
      var rel := BuildRelations(plugins);
      EntriesAsWrittenFails(proto, rel, plugins);
      if EntriesAsWritten(proto, rel, plugins).Ok? {
        EntriesAsWrittenValue(proto, rel, plugins);
        assert EntriesAsWritten(proto, rel, plugins).value == PluginEntries(plugins);
      }
    }
  }

  /** The discrepancy on a concrete call: a plugin named `constructor`
      makes the sort throw as written, and sorts with own words only. */
  lemma PluginNamedConstructor()
    ensures SortPluginsAsWritten(JsValues.InheritedNames, [Plugin("constructor", [], [], [])]) == Err(NotAList("constructor"))
    ensures SortPlugins([Plugin("constructor", [], [], [])]).Ok?
  {
    var ps := [Plugin("constructor", [], [], [])];
    assert ps[..0] == [];
    DagMap.EdgesWithoutDeps(PluginEntries(ps));
  }

  /** The discrepancy on a concrete call: listing `toString` in `before`
      while no plugin carries it makes the sort throw as written; with own
      words only the entry is dropped. */
  lemma BeforeEntryToString()
    ensures SortPluginsAsWritten(JsValues.InheritedNames, [Plugin("a", [], ["toString"], [])]) == Err(NotAList("toString"))
    ensures SortPlugins([Plugin("a", [], ["toString"], [])]).Ok?
  {
    var ps := [Plugin("a", [], ["toString"], [])];
    assert ps[..0] == [];
    assert BuildRelations(ps) == RelateTags(Relate(map[], "a", "a"), [], "a");
    assert "toString" !in BuildRelations(ps);
    assert Expand(BuildRelations(ps), ["toString"]) == [];
    DagMap.EdgesWithoutDeps(PluginEntries(ps));
  }
}
