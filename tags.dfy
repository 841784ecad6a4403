/** The handler tags that the `command`, `event` and `task` decorators attach
    to a plugin function (chii.py, section "decorators"). */
module Tags {
  import opened Wrappers

  /** What invoking a handler body yields: a reply (None or a string; the
      empty string and None both count as "no reply"), or a raised exception
      whose text is `error`. */
  datatype Outcome = Returned(reply: Option<string>) | Fault(error: string)

  /** A handler body. It receives its positional string arguments: for a
      command (nick, host, channel, *args), for an event the event payload. */
  type Body = seq<string> -> Outcome

  /** A plugin function before it is tagged. */
  datatype Func = Func(name: string, body: Body)

  /** The metadata the decorators attach: `_registry` is the constructor,
      `_command_names`, `_restrict`, `_event_type` and `_task_interval` its fields. */
  datatype Tag =
    | CommandTag(aliases: seq<string>, restrict: Option<string>)
    | EventTag(eventType: string)
    | TaskTag(interval: int)

  /** A tagged plugin function; `name` is the copied `__name__`. */
  datatype Handler = Handler(name: string, tag: Tag, body: Body)

  /** How `command` is applied: `@command` directly on the function, or
      `@command(*args, **kwargs)` with string aliases and keyword arguments. */
  datatype CommandCall = Bare | Called(args: seq<string>, kwargs: map<string, string>)

  const IndexError := "IndexError: tuple index out of range"

  /** The `command` decorator. Used bare, or with only keyword arguments, the
      handler is known by its own function name; with positional arguments,
      exactly by those. The restriction comes only from `restrict=`. Called
      with no arguments at all, it takes the else branch and `args[0]` raises. */
  function Command(call: CommandCall, f: Func): (r: Result<Handler>)
    ensures r.Err? <==> call == Called([], map[])
    ensures r.Ok? ==> r.value.name == f.name && r.value.body == f.body && r.value.tag.CommandTag?
    ensures r.Ok? && call.Called? && call.args != [] ==> r.value.tag.aliases == call.args
    ensures r.Ok? && (call.Bare? || call.args == []) ==> r.value.tag.aliases == [f.name]
    ensures r.Ok? ==> (r.value.tag.restrict.Some? <==> call.Called? && "restrict" in call.kwargs)
    ensures r.Ok? && r.value.tag.restrict.Some? ==> r.value.tag.restrict.value == call.kwargs["restrict"]
  {
    match call
    case Bare => Ok(Handler(f.name, CommandTag([f.name], None), f.body))
    case Called(args, kwargs) =>
      if args != [] || kwargs != map[] then
        var aliases := if args != [] then args else [f.name];
        var restrict := if "restrict" in kwargs then Some(kwargs["restrict"]) else None;
        Ok(Handler(f.name, CommandTag(aliases, restrict), f.body))
      else
        Err(IndexError)
  }

  /** The `event` decorator: tags the function with its event type. */
  function Event(eventType: string, f: Func): (h: Handler)
    ensures h.tag.EventTag? && h.tag.eventType == eventType
    ensures h.name == f.name && h.body == f.body
  {
    Handler(f.name, EventTag(eventType), f.body)
  }

  /** The `task` decorator: the interval is its first argument; further
      arguments are ignored, and none at all makes `args[0]` raise. */
  function Task(args: seq<int>, f: Func): (r: Result<Handler>)
    ensures r.Ok? <==> args != []
    ensures r.Ok? ==> r.value.tag == TaskTag(args[0]) && r.value.name == f.name && r.value.body == f.body
  {
    if args == [] then Err(IndexError) else Ok(Handler(f.name, TaskTag(args[0]), f.body))
  }

  /** Whether handler `h` is a command registered under `alias`. */
  predicate Declares(h: Handler, alias: string) {
    h.tag.CommandTag? && alias in h.tag.aliases
  }

  /** The aliases a handler registers: its `_command_names` if it is a command. */
  function AliasesOf(h: Handler): seq<string> {
    if h.tag.CommandTag? then h.tag.aliases else []
  }
}
