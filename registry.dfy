/** The registry tables and how a rebuild fills them (chii.py,
    `Chii._add_to_registry`, `_import_module`, `_update_registry`), as
    functions on values; `Bot.Chii` runs the same steps on its fields. */
module Registry {
  import opened Wrappers
  import opened Tags
  import opened Text

  /** One entry of `dir(mod)`: its name and, when the value carries a
      `_registry` attribute, the tagged handler. */
  datatype Attribute = Attribute(name: string, handler: Option<Handler>)

  /** A successfully imported plugin module: its attributes in `dir()` order. */
  datatype Module = Module(attrs: seq<Attribute>)

  /** An attribute `_add_to_registry` picks up: its name does not start with
      '_' and it carries a tag. */
  predicate Exported(a: Attribute) {
    a.handler.Some? && !(a.name != [] && a.name[0] == '_')
  }

  /** The handlers `_add_to_registry` registers, in scan order. */
  function Registered(attrs: seq<Attribute>): (hs: seq<Handler>)
    ensures |hs| <= |attrs|
    ensures forall a :: a in attrs && Exported(a) ==> a.handler.value in hs
    ensures forall h :: h in hs ==> exists a :: a in attrs && Exported(a) && a.handler == Some(h)
  {
    if attrs == [] then []
    else
      var last := attrs[|attrs| - 1];
      var init := Registered(attrs[..|attrs| - 1]);
      assert forall a :: a in attrs ==> a in attrs[..|attrs| - 1] || a == last;
      init + (if Exported(last) then [last.handler.value] else [])
  }

  /** A single attribute contributes its handler exactly when it is exported. */
  lemma RegisteredOne(a: Attribute)
    ensures Registered([a]) == if Exported(a) then [a.handler.value] else []
  {
    assert [a][..0] == [];
  }

  /** Registration keeps scan order: the handlers of `a + b` are those of `a`
      followed by those of `b`, each attribute contributing at its own place. */
  lemma {:induction false} RegisteredAppend(a: seq<Attribute>, b: seq<Attribute>)
    ensures Registered(a + b) == Registered(a) + Registered(b)
    decreases |b|
  {
    if b == [] {
      assert a + b == a;
    } else {
      var init, x := b[..|b| - 1], b[|b| - 1];
      assert b == init + [x];
      ConcatAssoc(a, init, [x]);
      assert (a + init + [x])[..|a + init|] == a + init;
      RegisteredAppend(a, init);
      var tail := if Exported(x) then [x.handler.value] else [];
      ConcatAssoc(Registered(a), Registered(init), tail);
    }
  }

  /** The three tables and the console warnings printed while filling them. */
  datatype Tables = Tables(
    commands: map<string, Handler>,
    events: map<string, seq<Handler>>,
    tasks: seq<Handler>,
    warnings: seq<string>)

  /** The tables as `_update_registry` resets them; printed output stays. */
  function Cleared(t: Tables): Tables {
    Tables(map[], map[], [], t.warnings)
  }

  /** Two registries with the same three tables (warnings aside). */
  ghost predicate SameTables(a: Tables, b: Tables) {
    a.commands == b.commands && a.events == b.events && a.tasks == b.tasks
  }

  /** `self.events[e]` of a `defaultdict(list)`. */
  function EventList(events: map<string, seq<Handler>>, e: string): seq<Handler> {
    if e in events then events[e] else []
  }

  function CollisionWarning(alias: string): string {
    "Warning! commands registry already contains " + alias
  }

  /** One turn of `add_command`'s loop. */
  function AddAlias(t: Tables, alias: string, h: Handler): Tables {
    t.(commands := t.commands[alias := h],
       warnings := if alias in t.commands then t.warnings + [CollisionWarning(alias)] else t.warnings)
  }

  /** `add_command` over the given aliases, in order. */
  function AddAliases(t: Tables, aliases: seq<string>, h: Handler): (r: Tables)
    ensures r.events == t.events && r.tasks == t.tasks
    ensures t.commands.Keys <= r.commands.Keys
    decreases |aliases|
  {
    if aliases == [] then t
    else AddAlias(AddAliases(t, aliases[..|aliases| - 1], h), aliases[|aliases| - 1], h)
  }

  /** `dispatch.get(method._registry)(method)`. */
  function Add(t: Tables, h: Handler): (r: Tables)
    ensures !h.tag.CommandTag? ==> r.commands == t.commands && r.warnings == t.warnings
    ensures !h.tag.EventTag? ==> r.events == t.events
    ensures !h.tag.TaskTag? ==> r.tasks == t.tasks
    ensures t.commands.Keys <= r.commands.Keys
  {
    match h.tag
    case CommandTag(aliases, _) => AddAliases(t, aliases, h)
    case EventTag(e) => t.(events := t.events[e := EventList(t.events, e) + [h]])
    case TaskTag(_) => t.(tasks := t.tasks + [h])
  }

  /** Registering a sequence of handlers, in order. */
  function AddAll(t: Tables, hs: seq<Handler>): (r: Tables)
    ensures t.commands.Keys <= r.commands.Keys
    ensures |t.tasks| <= |r.tasks|
    decreases |hs|
  {
    if hs == [] then t
    else Add(AddAll(t, hs[..|hs| - 1]), hs[|hs| - 1])
  }

  /** What the modules of one plugin location contribute, in listing order;
      a module whose import failed (None) contributes nothing. */
  function LoadedFrom(mods: seq<Option<Module>>): (r: seq<Handler>)
    ensures (forall k :: 0 <= k < |mods| ==> mods[k].None?) ==> r == []
    decreases |mods|
  {
    if mods == [] then []
    else
      var last := mods[|mods| - 1];
      LoadedFrom(mods[..|mods| - 1]) + (if last.Some? then Registered(last.value.attrs) else [])
  }

  /** What all configured locations contribute, in order. */
  function Loaded(locations: seq<seq<Option<Module>>>): seq<Handler>
    decreases |locations|
  {
    if locations == [] then []
    else Loaded(locations[..|locations| - 1]) + LoadedFrom(locations[|locations| - 1])
  }

  /** `_update_registry`: with a non-empty module list the tables are emptied
      and refilled from every module that imported; with an empty list they
      are left as they were. */
  function Rebuild(t: Tables, locations: seq<seq<Option<Module>>>): Tables {
    if locations == [] then t else AddAll(Cleared(t), Loaded(locations))
  }

  /** The operator summary printed after a rebuild joins the task handlers
      themselves, which are not strings, so it raises TypeError whenever the
      task table is non-empty. */
  predicate SummaryRaises(t: Tables) {
    t.tasks != []
  }

  /** A non-empty rebuild fails at its summary exactly when some loaded
      module defines a task. */
  lemma RebuildRaisesIffTasks(t: Tables, locations: seq<seq<Option<Module>>>)
    requires locations != []
    ensures SummaryRaises(Rebuild(t, locations)) <==> TasksIn(Loaded(locations)) != []
  {
    AddAllTasks(Cleared(t), Loaded(locations));
  }

  // ---------------------------------------------------------------------
  // Reference definitions the lemmas compare the fold with.

  function SetOf(s: seq<string>): set<string> {
    set a | a in s
  }

  predicate Distinct(s: seq<string>) {
    forall i, j :: 0 <= i < j < |s| ==> s[i] != s[j]
  }

  /** The warnings `add_command` prints for `aliases` over a table whose
      aliases are `keys`: one naming `aliases[i]` for each position i whose
      alias is among `keys` or occurs earlier in `aliases`, in order. */
  function Collisions(keys: set<string>, aliases: seq<string>): seq<string>
    decreases |aliases|
  {
    if aliases == [] then []
    else
      var init, last := aliases[..|aliases| - 1], aliases[|aliases| - 1];
      Collisions(keys, init) + (if last in keys || last in init then [CollisionWarning(last)] else [])
  }

  /** No alias of `s` is repeated or already among `keys`. */
  predicate Fresh(keys: set<string>, s: seq<string>) {
    Distinct(s) && forall i :: 0 <= i < |s| ==> s[i] !in keys
  }

  /** Every alias that the handlers declare, in registration order. */
  function AliasSeq(hs: seq<Handler>): seq<string>
    decreases |hs|
  {
    if hs == [] then [] else AliasSeq(hs[..|hs| - 1]) + AliasesOf(hs[|hs| - 1])
  }

  /** The last of `hs` that declares `alias`, if any. */
  function LastDeclaring(hs: seq<Handler>, alias: string): Option<Handler>
    decreases |hs|
  {
    if hs == [] then None
    else if Declares(hs[|hs| - 1], alias) then Some(hs[|hs| - 1])
    else LastDeclaring(hs[..|hs| - 1], alias)
  }

  /** The handlers of `hs` tagged with event type `e`, in order. */
  function EventsFor(hs: seq<Handler>, e: string): seq<Handler>
    decreases |hs|
  {
    if hs == [] then []
    else EventsFor(hs[..|hs| - 1], e) + (if hs[|hs| - 1].tag == EventTag(e) then [hs[|hs| - 1]] else [])
  }

  /** The task handlers of `hs`, in order. */
  function TasksIn(hs: seq<Handler>): seq<Handler>
    decreases |hs|
  {
    if hs == [] then []
    else TasksIn(hs[..|hs| - 1]) + (if hs[|hs| - 1].tag.TaskTag? then [hs[|hs| - 1]] else [])
  }

  /** The registry invariant: every alias resolves to a command declaring
      it; every event list present is non-empty and holds handlers of its own
      event type; the task list holds tasks only. */
  ghost predicate WellFormed(t: Tables) {
    && (forall a :: a in t.commands ==> Declares(t.commands[a], a))
    && (forall e :: e in t.events ==>
          t.events[e] != [] && forall k :: 0 <= k < |t.events[e]| ==> t.events[e][k].tag == EventTag(e))
    && (forall k :: 0 <= k < |t.tasks| ==> t.tasks[k].tag.TaskTag?)
  }

  // ---------------------------------------------------------------------
  // Lemmas

  lemma FreshSnoc(keys: set<string>, s: seq<string>, x: string)
    ensures Fresh(keys, s + [x]) <==> Fresh(keys, s) && x !in keys && x !in s
  {
    if Fresh(keys, s) && x !in keys && x !in s {
      forall i, j | 0 <= i < j < |s + [x]| ensures (s + [x])[i] != (s + [x])[j] {
        if j == |s| { assert (s + [x])[i] == s[i]; }
      }
    }
    if Fresh(keys, s + [x]) {
      assert forall i :: 0 <= i < |s| ==> s[i] == (s + [x])[i];
      assert (s + [x])[|s|] == x;
    }
  }

  /** The command table after `add_command`: the given aliases are added and
      resolve to `h`; every other alias keeps its handler. */
  lemma {:induction false} AddAliasesBindings(t: Tables, aliases: seq<string>, h: Handler)
    ensures AddAliases(t, aliases, h).commands.Keys == t.commands.Keys + SetOf(aliases)
    ensures forall a :: a in aliases ==> AddAliases(t, aliases, h).commands[a] == h
    ensures forall a :: a in t.commands && a !in aliases ==> AddAliases(t, aliases, h).commands[a] == t.commands[a]
    decreases |aliases|
  {
    if aliases != [] {
      var init, last := aliases[..|aliases| - 1], aliases[|aliases| - 1];
      assert aliases == init + [last];
      AddAliasesBindings(t, init, h);
      assert SetOf(aliases) == SetOf(init) + {last};
    }
  }

  /** `add_command`: each given alias now resolves to `h`, every other alias
      is unchanged, one warning is printed per alias that was already present,
      and nothing else changes. */
  lemma {:induction false} AddAliasesEffect(t: Tables, aliases: seq<string>, h: Handler)
    ensures AddAliases(t, aliases, h).events == t.events
    ensures AddAliases(t, aliases, h).tasks == t.tasks
    ensures AddAliases(t, aliases, h).commands.Keys == t.commands.Keys + SetOf(aliases)
    ensures forall a :: a in aliases ==> AddAliases(t, aliases, h).commands[a] == h
    ensures forall a :: a in t.commands && a !in aliases ==> AddAliases(t, aliases, h).commands[a] == t.commands[a]
    ensures |t.warnings| <= |AddAliases(t, aliases, h).warnings|
    ensures AddAliases(t, aliases, h).warnings[..|t.warnings|] == t.warnings
    ensures AddAliases(t, aliases, h).warnings == t.warnings <==> Fresh(t.commands.Keys, aliases)
    decreases |aliases|
  {
    AddAliasesBindings(t, aliases, h);
    if aliases != [] {
      var init, last := aliases[..|aliases| - 1], aliases[|aliases| - 1];
      assert aliases == init + [last];
      AddAliasesEffect(t, init, h);
      FreshSnoc(t.commands.Keys, init, last);
      var r' := AddAliases(t, init, h);
      var r := AddAliases(t, aliases, h);
      assert r == AddAlias(r', last, h);
      assert SetOf(aliases) == SetOf(init) + {last};
      assert last in r'.commands <==> last in t.commands || last in init;
      if r.warnings == t.warnings {
        assert |r'.warnings| <= |r.warnings|;
        assert r'.warnings == r'.warnings[..|t.warnings|];
      }
    }
  }

  /** `add_command` prints exactly the collision warnings: one naming each
      alias that is already bound or given earlier, in order. */
  lemma {:induction false} AddAliasesWarnings(t: Tables, aliases: seq<string>, h: Handler)
    ensures AddAliases(t, aliases, h).warnings == t.warnings + Collisions(t.commands.Keys, aliases)
    decreases |aliases|
  {
    if aliases == [] {
      assert t.warnings + [] == t.warnings;
    } else {
      var init, last := aliases[..|aliases| - 1], aliases[|aliases| - 1];
      AddAliasesWarnings(t, init, h);
      AddAliasesEffect(t, init, h);
      assert last in SetOf(init) <==> last in init;
      var w := if last in t.commands.Keys || last in init then [CollisionWarning(last)] else [];
      ConcatAssoc(t.warnings, Collisions(t.commands.Keys, init), w);
    }
  }

  /** How many warnings `add_command` prints: one per alias that does not
      add a new entry, so the warnings and the new entries together account
      for every alias given. */
  lemma {:induction false} CollisionCount(keys: set<string>, aliases: seq<string>)
    ensures |Collisions(keys, aliases)| + |SetOf(aliases) - keys| == |aliases|
    decreases |aliases|
  {
    if aliases != [] {
      var init, last := aliases[..|aliases| - 1], aliases[|aliases| - 1];
      assert aliases == init + [last];
      CollisionCount(keys, init);
      assert SetOf(aliases) == SetOf(init) + {last};
      if last in keys || last in init {
        assert SetOf(aliases) - keys == SetOf(init) - keys;
      } else {
        assert SetOf(aliases) - keys == (SetOf(init) - keys) + {last};
        assert last !in SetOf(init) - keys;
      }
    }
  }

  lemma AddAllSnoc(t: Tables, hs: seq<Handler>, h: Handler)
    ensures AddAll(t, hs + [h]) == Add(AddAll(t, hs), h)
  {
    assert (hs + [h])[..|hs|] == hs;
  }

  /** Registering `a` then `b` is registering `a + b`: a rebuild may be
      carried out module by module. */
  lemma {:induction false} AddAllAppend(t: Tables, a: seq<Handler>, b: seq<Handler>)
    ensures AddAll(t, a + b) == AddAll(AddAll(t, a), b)
    decreases |b|
  {
    if b == [] {
      assert a + b == a;
    } else {
      var init, last := b[..|b| - 1], b[|b| - 1];
      assert a + b == (a + init) + [last];
      AddAllSnoc(t, a + init, last);
      AddAllAppend(t, a, init);
    }
  }

  lemma AliasSeqSnoc(hs: seq<Handler>, h: Handler)
    ensures AliasSeq(hs + [h]) == AliasSeq(hs) + AliasesOf(h)
  {
    assert (hs + [h])[..|hs|] == hs;
  }

  /** After registering `hs`, the aliases present are the old ones plus every
      alias `hs` declares; an alias some handler declares resolves to the LAST
      such handler, any other alias keeps its old handler. */
  lemma {:induction false} AddAllCommands(t: Tables, hs: seq<Handler>, alias: string)
    ensures AddAll(t, hs).commands.Keys == t.commands.Keys + SetOf(AliasSeq(hs))
    ensures alias in AddAll(t, hs).commands <==> alias in t.commands || LastDeclaring(hs, alias).Some?
    ensures LastDeclaring(hs, alias).Some? ==> AddAll(t, hs).commands[alias] == LastDeclaring(hs, alias).value
    ensures LastDeclaring(hs, alias).None? && alias in t.commands ==> AddAll(t, hs).commands[alias] == t.commands[alias]
    decreases |hs|
  {
    if hs != [] {
      var init, h := hs[..|hs| - 1], hs[|hs| - 1];
      assert hs == init + [h];
      AddAllCommands(t, init, alias);
      AliasSeqSnoc(init, h);
      var r' := AddAll(t, init);
      assert SetOf(AliasSeq(hs)) == SetOf(AliasSeq(init)) + SetOf(AliasesOf(h));
      if h.tag.CommandTag? {
        AddAliasesBindings(r', h.tag.aliases, h);
      }
    }
  }

  /** The event list of each type grows by exactly the handlers of that type,
      in scan order. */
  lemma {:induction false} AddAllEvents(t: Tables, hs: seq<Handler>, e: string)
    ensures EventList(AddAll(t, hs).events, e) == EventList(t.events, e) + EventsFor(hs, e)
    decreases |hs|
  {
    if hs != [] {
      var init, h := hs[..|hs| - 1], hs[|hs| - 1];
      AddAllEvents(t, init, e);
      if h.tag.CommandTag? {
        AddAliasesEffect(AddAll(t, init), h.tag.aliases, h);
      }
    }
  }

  /** The task list grows by exactly the tasks of `hs`, in scan order. */
  lemma {:induction false} AddAllTasks(t: Tables, hs: seq<Handler>)
    ensures AddAll(t, hs).tasks == t.tasks + TasksIn(hs)
    decreases |hs|
  {
    if hs != [] {
      var init, h := hs[..|hs| - 1], hs[|hs| - 1];
      AddAllTasks(t, init);
      if h.tag.CommandTag? {
        AddAliasesEffect(AddAll(t, init), h.tag.aliases, h);
      }
    }
  }

  /** FreshSnoc for a whole sequence. */
  lemma {:induction false} FreshAppend(keys: set<string>, s: seq<string>, u: seq<string>)
    ensures Fresh(keys, s + u) <==> Fresh(keys, s) && Fresh(keys + SetOf(s), u)
    decreases |u|
  {
    if u == [] {
      assert s + u == s;
    } else {
      var init, x := u[..|u| - 1], u[|u| - 1];
      assert s + u == (s + init) + [x];
      assert u == init + [x];
      FreshAppend(keys, s, init);
      FreshSnoc(keys, s + init, x);
      FreshSnoc(keys + SetOf(s), init, x);
    }
  }

  /** Warnings are only ever appended, and a registration prints none exactly
      when no alias is declared twice or was already present. */
  lemma {:induction false} AddAllWarnings(t: Tables, hs: seq<Handler>)
    ensures |t.warnings| <= |AddAll(t, hs).warnings|
    ensures AddAll(t, hs).warnings[..|t.warnings|] == t.warnings
    ensures AddAll(t, hs).warnings == t.warnings <==> Fresh(t.commands.Keys, AliasSeq(hs))
    decreases |hs|
  {
    if hs != [] {
      var init, h := hs[..|hs| - 1], hs[|hs| - 1];
      assert hs == init + [h];
      AddAllWarnings(t, init);
      AliasSeqSnoc(init, h);
      AddAllCommands(t, init, "");
      FreshAppend(t.commands.Keys, AliasSeq(init), AliasesOf(h));
      var r' := AddAll(t, init);
      var r := AddAll(t, hs);
      if h.tag.CommandTag? {
        AddAliasesEffect(r', h.tag.aliases, h);
        if r.warnings == t.warnings {
          assert |r'.warnings| <= |r.warnings|;
          assert r'.warnings == r'.warnings[..|t.warnings|];
        }
      } else {
        assert AliasesOf(h) == [];
        assert AliasSeq(init) + [] == AliasSeq(init);
      }
    }
  }

  lemma {:induction false} AddAliasesWellFormed(t: Tables, aliases: seq<string>, h: Handler)
    requires WellFormed(t)
    requires forall a :: a in aliases ==> Declares(h, a)
    ensures WellFormed(AddAliases(t, aliases, h))
  {
    AddAliasesEffect(t, aliases, h);
  }

  /** Every rebuild step keeps the registry invariant. */
  lemma {:induction false} AddAllWellFormed(t: Tables, hs: seq<Handler>)
    requires WellFormed(t)
    ensures WellFormed(AddAll(t, hs))
    decreases |hs|
  {
    if hs != [] {
      var init, h := hs[..|hs| - 1], hs[|hs| - 1];
      AddAllWellFormed(t, init);
      var r' := AddAll(t, init);
      match h.tag
      case CommandTag(aliases, _) =>
        AddAliasesWellFormed(r', aliases, h);
      case EventTag(e) =>
        var r := Add(r', h);
        assert forall x :: x in r.events && x != e ==> r.events[x] == r'.events[x];
      case TaskTag(_) =>
    }
  }

  lemma {:induction false} AddAliasesSame(a: Tables, b: Tables, aliases: seq<string>, h: Handler)
    requires SameTables(a, b)
    ensures SameTables(AddAliases(a, aliases, h), AddAliases(b, aliases, h))
    decreases |aliases|
  {
    if aliases != [] {
      AddAliasesSame(a, b, aliases[..|aliases| - 1], h);
    }
  }

  /** The tables a registration produces do not depend on what was printed
      before. */
  lemma {:induction false} AddAllSame(a: Tables, b: Tables, hs: seq<Handler>)
    requires SameTables(a, b)
    ensures SameTables(AddAll(a, hs), AddAll(b, hs))
    decreases |hs|
  {
    if hs != [] {
      var init, h := hs[..|hs| - 1], hs[|hs| - 1];
      AddAllSame(a, b, init);
      if h.tag.CommandTag? {
        AddAliasesSame(AddAll(a, init), AddAll(b, init), h.tag.aliases, h);
      }
    }
  }

  lemma LoadedFromSnoc(mods: seq<Option<Module>>, m: Option<Module>)
    ensures LoadedFrom(mods + [m]) == LoadedFrom(mods) + (if m.Some? then Registered(m.value.attrs) else [])
  {
    assert (mods + [m])[..|mods|] == mods;
  }

  /** One step of loading a location: registering the modules up to and
      including `mods[j]` is registering those before it, then the handlers
      of `mods[j]` when its import succeeded. */
  lemma LoadedFromStep(t: Tables, mods: seq<Option<Module>>, j: nat)
    requires j < |mods|
    ensures AddAll(t, LoadedFrom(mods[..j + 1]))
            == if mods[j].Some? then AddAll(AddAll(t, LoadedFrom(mods[..j])), Registered(mods[j].value.attrs))
               else AddAll(t, LoadedFrom(mods[..j]))
  {
    var before := LoadedFrom(mods[..j]);
    assert mods[..j + 1] == mods[..j] + [mods[j]];
    LoadedFromSnoc(mods[..j], mods[j]);
    if mods[j].Some? {
      assert LoadedFrom(mods[..j + 1]) == before + Registered(mods[j].value.attrs);
      AddAllAppend(t, before, Registered(mods[j].value.attrs));
    } else {
      assert before + [] == before;
      assert LoadedFrom(mods[..j + 1]) == before;
    }
  }

  lemma {:induction false} LoadedFromAppend(a: seq<Option<Module>>, b: seq<Option<Module>>)
    ensures LoadedFrom(a + b) == LoadedFrom(a) + LoadedFrom(b)
    decreases |b|
  {
    if b == [] {
      assert a + b == a;
    } else {
      var init, m := b[..|b| - 1], b[|b| - 1];
      var tail := if m.Some? then Registered(m.value.attrs) else [];
      assert b == init + [m];
      ConcatAssoc(a, init, [m]);
      LoadedFromSnoc(a + init, m);
      LoadedFromSnoc(init, m);
      LoadedFromAppend(a, init);
      ConcatAssoc(LoadedFrom(a), LoadedFrom(init), tail);
    }
  }

  /** A module whose import fails adds nothing, and the modules listed after
      it are still loaded. */
  lemma FailedImportIsIsolated(before: seq<Option<Module>>, after: seq<Option<Module>>)
    ensures LoadedFrom(before + [None] + after) == LoadedFrom(before) + LoadedFrom(after)
  {
    LoadedFromAppend(before + [None], after);
    LoadedFromSnoc(before, None);
  }

  /** With an empty module list a rebuild leaves the tables as they are. */
  lemma EmptyModuleListKeepsTables(t: Tables)
    ensures Rebuild(t, []) == t
  {
  }

  /** With a non-empty module list a rebuild discards the old tables: the
      aliases present are exactly those the loaded handlers declare, each
      event type lists exactly its loaded handlers in scan order, and the
      task list is exactly the loaded tasks. */
  lemma RebuildReplacesTables(t: Tables, locations: seq<seq<Option<Module>>>, e: string)
    requires locations != []
    ensures Rebuild(t, locations).commands.Keys == SetOf(AliasSeq(Loaded(locations)))
    ensures EventList(Rebuild(t, locations).events, e) == EventsFor(Loaded(locations), e)
    ensures Rebuild(t, locations).tasks == TasksIn(Loaded(locations))
  {
    AddAllCommands(Cleared(t), Loaded(locations), "");
    AddAllEvents(Cleared(t), Loaded(locations), e);
    AddAllTasks(Cleared(t), Loaded(locations));
  }

  /** Reloading twice from unchanged plugin sources gives the same tables. */
  lemma ReloadIsIdempotent(t: Tables, locations: seq<seq<Option<Module>>>)
    ensures SameTables(Rebuild(Rebuild(t, locations), locations), Rebuild(t, locations))
  {
    if locations != [] {
      AddAllSame(Cleared(Rebuild(t, locations)), Cleared(t), Loaded(locations));
    }
  }

  lemma {:induction false} DistinctCard(s: seq<string>)
    requires Distinct(s)
    ensures |SetOf(s)| == |s|
    decreases |s|
  {
    if s != [] {
      var init := s[..|s| - 1];
      assert SetOf(s) == SetOf(init) + {s[|s| - 1]};
      assert s[|s| - 1] !in SetOf(init);
      DistinctCard(init);
    }
  }

  /** When the loaded handlers declare pairwise distinct aliases, a rebuild
      prints no warning and the command table has one entry per alias. */
  lemma DistinctAliasesAllRegistered(t: Tables, locations: seq<seq<Option<Module>>>)
    requires locations != []
    requires Distinct(AliasSeq(Loaded(locations)))
    ensures Rebuild(t, locations).warnings == t.warnings
    ensures |Rebuild(t, locations).commands| == |AliasSeq(Loaded(locations))|
  {
    var s := AliasSeq(Loaded(locations));
    AddAllWarnings(Cleared(t), Loaded(locations));
    AddAllCommands(Cleared(t), Loaded(locations), "");
    DistinctCard(s);
    assert Rebuild(t, locations).commands.Keys == SetOf(s);
  }

  /** On an alias collision the later registration wins and a warning naming
      the alias is printed; the aliases the later handler does not declare
      keep their handler. */
  lemma CollisionOverwrites(t: Tables, first: Handler, second: Handler, alias: string, other: string)
    requires Declares(first, alias) && Declares(second, alias)
    requires !Declares(second, other) && other in AddAll(t, [first]).commands
    ensures alias in AddAll(t, [first, second]).commands && other in AddAll(t, [first, second]).commands
    ensures AddAll(t, [first, second]).commands[alias] == second
    ensures AddAll(t, [first, second]).commands[other] == AddAll(t, [first]).commands[other]
    ensures CollisionWarning(alias) in AddAll(t, [first, second]).warnings
  {
    var hs := [first, second];
    assert hs[..1] == [first];
    AddAllCommands(t, hs, alias);
    var r1 := AddAll(t, [first]);
    AddAllCommands(t, [first], alias);
    AddAliasesEffect(r1, second.tag.aliases, second);
    assert AddAll(t, hs) == AddAliases(r1, second.tag.aliases, second);
    assert !Fresh(r1.commands.Keys, second.tag.aliases);
    AddAllWarningsNamed(r1, second.tag.aliases, second, alias);
  }

  /** A warning names each alias that was present before `add_command` ran. */
  lemma {:induction false} AddAllWarningsNamed(t: Tables, aliases: seq<string>, h: Handler, alias: string)
    requires alias in t.commands && alias in aliases
    ensures CollisionWarning(alias) in AddAliases(t, aliases, h).warnings
    decreases |aliases|
  {
    var init, last := aliases[..|aliases| - 1], aliases[|aliases| - 1];
    assert aliases == init + [last];
    var r' := AddAliases(t, init, h);
    AddAliasesEffect(t, init, h);
    if alias in init {
      AddAllWarningsNamed(t, init, h, alias);
    } else {
      assert last == alias;
    }
  }
}
