# chii registry and dispatch, modelled in Dafny

This project models the plugin registry and dispatch engine of the chii IRC
bot (`chii.py`). Plugin modules expose functions tagged by the `command`,
`event` and `task` decorators. On connect, and on every reload, the bot
rebuilds three tables from them:

- `commands` maps an alias to one handler;
- `events` maps an event type to an ordered list of handlers;
- `tasks` is a list of periodic handlers.

Incoming messages are then fanned out to event handlers. A line that starts
with the command prefix is routed to one command handler, behind a role-based
permission check. Handler faults are contained at that boundary.

Modules:

- `Wrappers`: `Option` and `Result`.
- `Text`: Python 2 `str.split()`, `str.lower()`, `startswith` and the
  `nick!host` split, with a split/join round trip.
- `Config`: `Config.__getitem__` over the stored values and the default table.
- `Tags`: the decorators, as functions from a plugin function to a tagged
  `Handler`. A handler body is an arbitrary function from its string
  arguments to `Returned(reply)` or `Fault(error)`.
- `Permission`: `check_permission`, as the intended fail-closed rule, as a
  loop proved against that rule, and as written.
- `Registry`: the tables as values, and a rebuild as a fold over the loaded
  handlers, with lemmas on collisions, ordering, failed imports and reloads.
- `Routing`: what `_handle_command` and `_handle_event` send and log, as
  functions, with lemmas on silence, routing and fault isolation.
- `Bot`: class `Chii`. Its fields are the three tables, the collision
  warnings and a trace of effects. `Msg(target, text)` stands for `self.msg`
  and `Log(line)` for `self.logger.log`. A ghost trace records handler
  invocations. Its methods rebuild the tables in place and dispatch. Each is
  proved against the functions of `Registry` and `Routing`.
  `ChiiBot.privmsg`, `action` and `connectionMade` are methods of the same
  class, because ChiiBot inherits Chii.

The fixes below are used throughout the model, and both are listed under
Findings:

- line 227 calls `self.check_permission` instead of the bare name;
- `check_permission` denies an unknown role instead of raising KeyError.

## Model

| member | source | states |
|---|---|---|
| `Tags.Command` | chii.py:63-97 | Bare, or with only keyword arguments, the handler's aliases are exactly its own function name. With positional arguments, they are exactly those arguments. The restriction is set iff `restrict=` is given, and equals it. A call with no arguments at all raises IndexError. |
| `Tags.Event` | chii.py:99-109 | The handler is tagged with the given event type and keeps the function's name and body. |
| `Tags.Task` | chii.py:111-121 | The interval is the first argument. With no argument the decorator raises IndexError. |
| `Config.Get` | chii.py:43-47 | The lookup equals a lookup in the defaults overlaid by the stored values. It is None iff the key is neither stored nor defaulted. |
| `Config.StoredOverridesDefault` | chii.py:43-45 | A stored value hides the default of its key. |
| `Config.DefaultsWhenNothingStored` | chii.py:19-33 | With nothing stored, the prefix is "." and the nickname is "chii". The module list is non-empty, and `identpass` reads as None. |
| `Config.DefaultRoleTable` | chii.py:28 | The default role table is exactly `admins -> [zk!is@whatit.is]`. |
| `Config.RoleTable` | chii.py:262 | The role table read by the permission check. Its roles are exactly the keys of the stored `user_roles` dictionary, and a role given as a list has as members exactly the strings in that list. Without a stored dictionary there are no roles. |
| `Text.SplitJoin` | chii.py:223 | Splitting words joined by single spaces returns exactly those words. |
| `Text.Split` | chii.py:223 | Every token is non-empty and holds no whitespace. |
| `Text.SplitSpaced` | chii.py:223 | Words separated by runs of whitespace, with optional leading and trailing whitespace, split back into exactly those words. |
| `Text.Lower` | chii.py:224 | The result keeps the length. Each ASCII capital becomes the letter 32 code points above it, and every other character is kept. So the result has no upper-case ASCII letter, and a string without one is unchanged. |
| `Text.LowerEqualIff` | chii.py:224 | Two strings lower-case to the same string iff they have the same length and differ, position by position, only in ASCII case. |
| `Text.SplitUserExact` | chii.py:308 | `user.split('!')` unpacks to `(nick, host)` iff `user == nick + "!" + host` and neither part holds a '!'. This is the contract of `Text.SplitUser`. |
| `Text.SplitUser` | chii.py:308 | Definition of the unpacking: None unless the sender holds exactly one '!'. Its contract is `Text.SplitUserExact`. |
| `Text.StartsWith` | chii.py:319 | `msg.startswith(prefix)`. Definition only; `Bot.Chii.Privmsg` states that a command is routed exactly when it holds. |
| `Routing.ParseCommand` | chii.py:223-224 | There is no parse iff the line has no token. A key never holds an upper-case letter. The argument count is the token count minus one. The key and arguments themselves are stated by `Routing.ParseSpaced`. |
| `Routing.ParseJoined` | chii.py:223-229 | For a line of space-separated words, the key is the first word minus its first character, lower-cased. The arguments are the remaining words, verbatim. |
| `Routing.ParseSpaced` | chii.py:223-229 | However the words of a line are spaced (leading whitespace, runs of spaces or tabs, trailing whitespace), the key is the first word minus its first character, lower-cased, and the arguments are the remaining words, verbatim. |
| `Routing.SameKeyIffCaseVariants` | chii.py:224-225 | Two lines look up the same alias iff their first tokens, past the prefix character, differ only in ASCII case. |
| `Routing.ParseSayHelloWorld` | chii.py:223-229 | ".say hello world" parses to key "say" with arguments ["hello", "world"]. |
| `Routing.UpperCaseAliasUnreachable` | chii.py:224-225 | No line ever looks up an alias that contains an upper-case letter. |
| `Routing.ReplyTarget` | chii.py:236-239 | The reply goes to the sender when the channel is the bot's own nickname, otherwise to the channel. Definition only, used by `Routing.PermittedCommandRuns`. |
| `Routing.Selected` | chii.py:225-227 | A selected handler is the one bound to the parsed key, and the sender is permitted to run it. |
| `Routing.Response` | chii.py:230-233 | A handler's response, or the diagnostic for its fault. Definition only; its contract is `Routing.FaultAlwaysReplies`. |
| `Routing.Diagnostic` | chii.py:233 | The reply for a caught fault: `ur shit am fuked! ` followed by the exception text, also at line 251. Definition only; its contract is `Routing.FaultAlwaysReplies`. |
| `Routing.Truthy` | chii.py:235 | Python truthiness of a response or reply target: present and non-empty, as tested again at line 253. Definition only; it is used by `Routing.PermittedCommandRuns` and `Routing.FanOutAnnouncesReplies`. |
| `Routing.CommandEffects` | chii.py:221-240 | A command produces either nothing, or one non-empty message to the reply target followed by exactly its log line. Nothing is produced unless a handler was selected. |
| `Routing.UnknownCommandIsSilent` | chii.py:225-226 | An unknown key runs no handler, sends nothing and logs nothing. |
| `Routing.DeniedCommandIsSilent` | chii.py:227 | A denied command runs no handler, sends nothing and logs nothing. |
| `Routing.PermittedCommandRuns` | chii.py:228-240 | A permitted command runs its handler once with (nick, host, channel, *args). A fault yields the diagnostic reply. A truthy reply is sent to the nick for a private message, otherwise to the channel, and logged once. An empty or None reply sends nothing. |
| `Routing.FaultAlwaysReplies` | chii.py:232-233 | A fault's response is non-empty: the prefix `ur shit am fuked! ` followed by the exception text. |
| `Routing.CommandEffectsAsWritten` | chii.py:227 | As written, every line whose key is known raises, and no line ever sends anything. |
| `Routing.ParsePing` | chii.py:223-224 | ".ping" parses to key "ping" with no arguments. |
| `Routing.PingAnsweredOnlyWhenCorrected` | chii.py:227 | Take a line that parses to `ping` (such as ".ping"), bound to an unrestricted handler that replies "pong". As written, the code raises. The corrected router sends "pong" to the channel and logs `<chii> pong`. |
| `Routing.Invocations` | chii.py:247-249 | A fan-out invokes every handler of the list exactly once, in list order, with the payload. |
| `Routing.Contribution` | chii.py:249-256 | One handler adds nothing, or, with a truthy `respond`, a non-empty message to `respond` followed by its log line. |
| `Routing.FanOut` | chii.py:247-256 | A fan-out adds at most two effects per handler, and nothing at all without a truthy `respond`. |
| `Routing.FanOutAppend` | chii.py:247-256 | The effects of a fan-out over `a + b` are those over `a` followed by those over `b`. What one handler does never changes another's contribution. |
| `Routing.FaultDoesNotStopLaterHandlers` | chii.py:248-256 | A handler that raises mid-list is reported in place as the diagnostic. Every later handler still contributes. |
| `Routing.FanOutAnnouncesReplies` | chii.py:253-256 | With a truthy `respond`, every truthy response is sent to `respond` and logged, in handler order. Without one, nothing is sent or logged. |
| `Permission.CheckPermission` | chii.py:258-264 | Tries nick, host and `nick!host` in turn. Grants iff there is no restriction, or the role exists and lists one of the three. |
| `Permission.CheckPermissionAsWritten` | chii.py:262 | As written, the check raises exactly when a restriction names a role missing from the table. |
| `Permission.FailClosedOnlyWhereSourceRaises` | chii.py:258-264 | Wherever the source returns, the fail-closed rule agrees with it. Wherever the source raises, the rule denies. |
| `Permission.MemberIsPermitted` | chii.py:261-263 | A sender listed under the role as nick, host or `nick!host` is permitted. |
| `Permission.Permitted` | chii.py:258-264 | The fail-closed rule: no restriction, or the role exists and lists the nick, the host or `nick!host`. Definition only; its contracts are `Permission.CheckPermission` and `Permission.FailClosedOnlyWhereSourceRaises`. |
| `Registry.Exported` | chii.py:176 | The attribute filter: the name does not start with '_' and the value carries `_registry`. Definition only; its contracts are `Registry.Registered` and `Registry.RegisteredOne`. |
| `Registry.Registered` | chii.py:176-178 | Every exported tagged attribute (name not starting with '_') is registered. Every registered handler is one of them. |
| `Registry.RegisteredOne` | chii.py:176-178 | One attribute contributes its handler iff it is exported and tagged. |
| `Registry.RegisteredAppend` | chii.py:176-178 | Registration keeps scan order and multiplicity: the handlers of `a + b` are those of `a` followed by those of `b`. |
| `Registry.AddAliasesEffect` | chii.py:162-166 | Every alias given now resolves to the handler, the aliases are the old ones plus the given ones, and every other alias is unchanged. Events and tasks are untouched. Warnings are only appended, and none is printed iff no alias repeats or was already present. |
| `Registry.AddAliasesWarnings` | chii.py:164-165 | The warnings appended are exactly `Registry.Collisions`: one naming each alias that is already bound or given earlier, in order. |
| `Registry.CollisionCount` | chii.py:164-166 | The number of warnings plus the number of new aliases is the number of aliases given. |
| `Registry.AddAliases` | chii.py:162-166 | `add_command` leaves events and tasks alone and never removes an alias. |
| `Registry.Add` | chii.py:174-178 | Dispatch on the tag: only the command table and warnings change for a command, only the events for an event, only the tasks for a task. No alias is removed. |
| `Registry.AddAll` | chii.py:177-178 | Registering handlers never removes an alias and never shortens the task list. |
| `Registry.AddAllCommands` | chii.py:162-166 | After registration, the aliases are the old ones plus every declared alias. Each declared alias resolves to the last handler that declares it. |
| `Registry.CollisionOverwrites` | chii.py:164-166 | On a collision the later handler wins and a warning naming the alias is printed. Aliases the later handler does not declare keep their handler. |
| `Registry.AddAllWarnings` | chii.py:164-165 | Warnings are only appended. None is printed iff no alias repeats or was already present. |
| `Registry.DistinctAliasesAllRegistered` | chii.py:162-166 | With pairwise distinct aliases, a rebuild prints no warning and has one command entry per alias. |
| `Registry.AddAllEvents` | chii.py:168-169 | Each event type's list grows by exactly its handlers, in scan order. |
| `Registry.AddAllTasks` | chii.py:171-172 | The task list grows by exactly the task handlers, in scan order. |
| `Registry.AddAllAppend` | chii.py:213-216 | Registering module by module equals registering everything at once. |
| `Registry.AddAllWellFormed` | chii.py:160-178 | Registration preserves the invariant. Every alias resolves to a command declaring it. Event lists are non-empty and hold only their own type. The task list holds only tasks. |
| `Registry.FailedImportIsIsolated` | chii.py:194-200 | A module whose first import failed adds nothing, and the modules after it still load. |
| `Registry.LoadedFrom` | chii.py:213-216 | A location whose imports all failed contributes no handler. Order and isolation are stated by `Registry.FailedImportIsIsolated`. |
| `Registry.Loaded` | chii.py:209-216 | The handlers of every location, in configured order. Definition only; its properties are stated by `Registry.RebuildReplacesTables` and `Registry.FailedImportIsIsolated`. |
| `Registry.Rebuild` | chii.py:204-216 | An empty module list keeps the tables; otherwise they are cleared and refilled. Definition only; its contracts are `Registry.EmptyModuleListKeepsTables`, `Registry.RebuildReplacesTables` and `Registry.ReloadIsIdempotent`. |
| `Registry.RebuildRaisesIffTasks` | chii.py:217-219 | After a non-empty rebuild, the summary line for tasks raises TypeError iff some loaded module defines a task. |
| `Registry.SummaryRaises` | chii.py:219 | The task summary raises TypeError iff the task table is non-empty, because it joins handlers rather than strings. Definition only; its contracts are `Registry.RebuildRaisesIffTasks` and `Bot.Chii.UpdateRegistry`. |
| `Registry.EmptyModuleListKeepsTables` | chii.py:204-205 | With an empty module list, a rebuild leaves the tables unchanged. |
| `Registry.RebuildReplacesTables` | chii.py:205-216 | With a non-empty module list, the old tables are discarded. The aliases, event lists and tasks are exactly those of the loaded handlers. |
| `Registry.ReloadIsIdempotent` | chii.py:202-216 | Rebuilding twice from unchanged sources gives the same three tables. |
| `Bot.Chii.constructor` | chii.py:158-159 | The bot starts with the given nickname, prefix and roles, empty tables, no warnings and an empty trace. |
| `Bot.Chii.AddCommand` | chii.py:162-166 | The tables become the old tables with the handler bound under each of its aliases, in order, one warning per alias already present (`Registry.Add`). |
| `Bot.Chii.AddEvent` | chii.py:168-169 | The tables become the old tables with the handler appended to its event type's list (`Registry.Add`). |
| `Bot.Chii.AddTask` | chii.py:171-172 | The tables become the old tables with the handler appended to the task list (`Registry.Add`). |
| `Bot.Chii.AddToRegistry` | chii.py:160-178 | The tables become the old tables with the module's exported handlers registered in order, and the invariant is kept. |
| `Bot.Chii.LoadLocation` | chii.py:213-216 | Registers each imported module of one location in listing order. Failed imports are skipped. |
| `Bot.Chii.UpdateRegistry` | chii.py:202-219 | The tables become `Rebuild` of the old tables, and the invariant is kept. `raised` is set iff the rebuild happened and its task summary raises, which is iff a task is registered. |
| `Bot.Chii.HandleCommand` | chii.py:221-240 | Appends exactly `CommandEffects` to the trace and records exactly `CommandCalls` as invocations. The tables are untouched. |
| `Bot.Chii.HandleEvent` | chii.py:243-256 | Appends exactly the fan-out's effects, and invokes every handler of the type once, in order. |
| `Bot.Chii.Privmsg` | chii.py:306-320 | Logs the line, fans out "msg", then "pubmsg" (in both branches), then routes a prefixed line as a command. A malformed sender causes no effect. |
| `Bot.Chii.Action` | chii.py:322-326 | Fans out "action", then logs `* nick msg`. |
| `Bot.Chii.ConnectionMade` | chii.py:283-287 | Logs the connection and rebuilds the tables. When the rebuild raises (a task is registered), no "load" handler runs. Otherwise every "load" handler runs once, in order, and nothing is sent. |
| `Bot.AlterCollidedNick` | chii.py:351-356 | The new nickname is the old one followed by one backtick. |
| `Bot.AlteredTimesFresh` | chii.py:367 | Without an `identpass`, repeated alterations never produce a nickname tried before. The k-th is the nickname followed by k backticks. |
| `Bot.NicknameInUse` | chii.py:358-367 | With an `identpass`, one `ghost <nickname> <identpass>` message goes to nickserv and the configured nickname is asked for again. Without one, nothing is sent and the attempted nickname with one backtick appended is asked for. |
| `Bot.AttemptAfter` | chii.py:358-367 | The nickname asked for after k collisions in a row. Definition only; its contracts are `Bot.GhostRetriesSameNick` and `Bot.NoIdentpassAttemptsFresh`. |
| `Bot.GhostRetriesSameNick` | chii.py:363-365 | With an `identpass`, every collision retries the configured nickname. |
| `Bot.NoIdentpassAttemptsFresh` | chii.py:367 | Without an `identpass`, a run of collisions never asks for the same nickname twice. |
| `Bot.AdminRestrictionUnresolvedByDefault` | chii.py:258-264 | Under the default roles, the "admin" restriction used by `rehash` and `mode` makes the code as written raise, and the fail-closed rule deny. |

## Left out

- Sockets, the IRC protocol and Twisted are not modelled: `ChiiFactory`, the reactor, `signedOn`, `joined` and the real `msg`/`sendLine`/`setNick`. The nickname asked for after a collision is the value `next` of `Bot.NicknameInUse`. Outbound messages are `Msg` entries of the effect trace.
- Real module import and reload are not modelled: `__import__`, `reload`, `sys.modules`, `delattr`, `os.listdir`, and turning paths into package names. These are runtime introspection and file-system access. Each configured path is given as the sequence of its modules' import results, and None is a failed import.
- Attribute scan order is taken as given. The source scans `dir(mod)`, which is alphabetical, and the model takes the attribute sequence in that order without checking it.
- An attribute whose `_registry` is not one of the three kinds is not modelled. The source would call None and raise. Every handler the decorators produce carries one of the three tags.
- Handler bodies are opaque. Their own side effects (a `say` command calling `msg`, a handler that reloads the registry during a fan-out) are not modelled. So are the bound `self` argument and an arity mismatch, which shows up only as a `Fault`.
- `Logger` (file I/O), and the YAML load and save of `Config`, are not modelled. Log lines are `Log` entries of the effect trace.
- The operator printouts (chii.py:186, 192, 199, 217-218) and `traceback.print_exc` are console output and are not modelled. The collision warnings are kept as the `warnings` field. The TypeError raised by the task summary at chii.py:219 is modelled as `raised` of `Bot.Chii.UpdateRegistry`.
- Task scheduling is not modelled. No driver invokes tasks in the source, so only the task table is kept.
- The plugin command bodies in commands/builtin.py and commands/misc.py are not modelled. They depend on randomness, HTTP, URL quoting or protocol calls.
- The template extensions in quoth/utils/jinja2/extensions.py belong to an unrelated subsystem and are not modelled.
- Python truthiness is modelled only for the values that appear here. A response is None or a string, and a `respond` of `False` is `None`.
- `Bot.Chii.constructor`: the source creates the tables only in `_update_registry`. With an empty module list at first connect, `_handle_event('load', …)` would raise AttributeError. The model starts from empty tables.
- `Routing.Response`: a `Fault` stands only for an exception that `except Exception` catches (chii.py:232, 250). In Python 2, `SystemExit`, `KeyboardInterrupt` and raised old-style class instances escape that boundary. Such a raise ends `_handle_command` or `_handle_event` at once, and the rest of `privmsg` (later handlers, the "pubmsg" fan-out, the command) never runs. So `Routing.FaultDoesNotStopLaterHandlers` and `Routing.PermittedCommandRuns` hold only for handlers that raise Exception subclasses.
- `Bot.Chii.HandleCommand`: a line with no token raises IndexError at `msg[0]`. That needs a blank message under a `cmd_prefix` that is empty or all whitespace. The model records no effect, which is everything that happens before the raise.
- `Registry.FailedImportIsIsolated`: a None import result stands for a failed first import only. Re-importing a module already in `sys.modules` calls `reload` outside the `try` (chii.py:186-190), so a failing reload propagates out of `_update_registry` with the tables partly refilled. `Bot.Chii.LoadLocation` has the same limit.
- `Bot.Chii.ConnectionMade`: when the task summary raises, the exception also leaves `connectionMade`. The model stops there and records no further effect; what Twisted does with the exception is not modelled.
- `Bot.Chii.Privmsg`: a sender without exactly one '!' raises ValueError. The model records no effect, which is everything that happens before the raise.
- `Bot.Chii`: the nickname is a constant. Twisted updates it after a nick collision. That update is not modelled as state; `Bot.NicknameInUse` gives only the nickname asked for.
- `Tags.Task`: the interval is an integer number of seconds. The source accepts any value.
- `Config.RoleTable`: a role whose value is not a list is treated as having no members. The source's `in` would do a substring or key test on such a value.

## Findings

| source | as written | input that shows it | evidently intended | confidence | as-written member | corrected member |
|---|---|---|---|---|---|---|
| chii.py:227 | calls the bare name `check_permission`, which is not a global, so every known command raises NameError outside the `try` | the line `.ping`, with `ping` registered to an unrestricted handler returning "pong" | `self.check_permission(...)`: run the handler and reply | high (not executed) | `Routing.CommandEffectsAsWritten` (exhibited by `Routing.PingAnsweredOnlyWhenCorrected` with `Routing.ParsePing`) | `Routing.CommandEffects` with `Routing.PermittedCommandRuns`, used by `Bot.Chii.HandleCommand` |
| chii.py:262 | indexes `user_roles[restrict_to]` without a membership test, so an unknown role raises KeyError | `restrict='admin'` (commands/builtin.py:3) under the default roles, which define only `admins` | an unknown role denies (fail-closed) | high (not executed) | `Permission.CheckPermissionAsWritten` (exhibited by `Bot.AdminRestrictionUnresolvedByDefault`) | `Permission.Permitted`, proved by `Permission.FailClosedOnlyWhereSourceRaises` and implemented by `Permission.CheckPermission` |
