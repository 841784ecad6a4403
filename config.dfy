/** The bot's configuration: a dictionary of stored values that falls back to
    a table of defaults (chii.py, class Config). */
module Config {
  import opened Wrappers

  /** The YAML values a configuration entry can hold. */
  datatype Value =
    | Str(s: string)
    | Int(i: int)
    | Bool(b: bool)
    | List(items: seq<Value>)
    | Dict(entries: map<string, Value>)

  /** `Config.defaults`. */
  const Defaults: map<string, Value> := map[
    "nickname" := Str("chii"),
    "realname" := Str("chii"),
    "server" := Str("irc.esper.net"),
    "port" := Int(6667),
    "channels" := List([Str("chiisadventure")]),
    "cmd_prefix" := Str("."),
    "modules" := List([Str("commands"), Str("events"), Str("tasks")]),
    "owner" := Str("zk!is@whatit.is"),
    "user_roles" := Dict(map["admins" := List([Str("zk!is@whatit.is")])]),
    "log_dir" := Str("logs"),
    "log_channel" := Bool(true),
    "log_chii" := Bool(false),
    "log_stdout" := Bool(true)
  ]

  function Lookup(m: map<string, Value>, key: string): Option<Value> {
    if key in m then Some(m[key]) else None
  }

  /** `Config.__getitem__`: the stored value, else the default, else None.
      It is a lookup in the defaults overlaid with the stored entries. */
  function Get(stored: map<string, Value>, key: string): (r: Option<Value>)
    ensures r == Lookup(Defaults + stored, key)
    ensures r.None? <==> key !in stored && key !in Defaults
  {
    if key in stored then Some(stored[key])
    else if key in Defaults then Some(Defaults[key])
    else None
  }

  /** A stored entry always hides the default of the same key. */
  lemma StoredOverridesDefault(stored: map<string, Value>, key: string, v: Value)
    requires key in Defaults
    ensures Get(stored[key := v], key) == Some(v)
  {
  }

  /** With nothing stored, the command prefix is "." and the module list is
      non-empty; keys without a default, such as "identpass", read as None. */
  lemma DefaultsWhenNothingStored()
    ensures Get(map[], "cmd_prefix") == Some(Str("."))
    ensures Get(map[], "nickname") == Some(Str("chii"))
    ensures Get(map[], "modules").Some? && Get(map[], "modules").value.List?
    ensures Get(map[], "modules").value.items != []
    ensures Get(map[], "identpass") == None
  {
  }

  /** The string members of a role's list; `member in list` can only match these. */
  function Strings(items: seq<Value>): (r: seq<string>)
    ensures forall x :: x in r <==> Str(x) in items
  {
    if items == [] then []
    else (if items[0].Str? then [items[0].s] else []) + Strings(items[1..])
  }

  /** The role table read from the `user_roles` entry: role name to members. */
  function RoleTable(v: Option<Value>): (roles: map<string, seq<string>>)
    ensures v.Some? && v.value.Dict? ==> roles.Keys == v.value.entries.Keys
    ensures v.Some? && v.value.Dict? ==>
              forall r, x :: r in v.value.entries && v.value.entries[r].List? ==>
                (x in roles[r] <==> Str(x) in v.value.entries[r].items)
    ensures !(v.Some? && v.value.Dict?) ==> roles == map[]
  {
    if v.Some? && v.value.Dict? then
      map r | r in v.value.entries :: if v.value.entries[r].List? then Strings(v.value.entries[r].items) else []
    else map[]
  }

  /** The default role table has exactly one role, "admins", whose only member
      is the owner "zk!is@whatit.is". */
  lemma DefaultRoleTable()
    ensures RoleTable(Get(map[], "user_roles")) == map["admins" := ["zk!is@whatit.is"]]
  {
    var m := map["admins" := List([Str("zk!is@whatit.is")])];
    assert Get(map[], "user_roles") == Some(Dict(m));
    assert Strings([Str("zk!is@whatit.is")]) == ["zk!is@whatit.is"];
  }
}
