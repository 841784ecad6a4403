/** The bot object (chii.py, classes Chii and ChiiBot): the registry tables it
    rebuilds in place and the callbacks that feed messages through them. */
module Bot {
  import opened Wrappers
  import opened Text
  import opened Tags
  import opened Permission
  import opened Registry
  import opened Routing
  import Config

  /** A Chii bot. `effects` records every `self.msg` and `self.logger.log`
      call in order; `calls` records every handler invocation. */
  class Chii {
    const nickname: string
    const cmdPrefix: string
    const userRoles: map<string, seq<string>>

    var commands: map<string, Handler>
    var events: map<string, seq<Handler>>
    var tasks: seq<Handler>
    var warnings: seq<string>
    var effects: seq<Effect>
    ghost var calls: seq<Call>

    function Snapshot(): Tables
      reads this
    {
      Tables(commands, events, tasks, warnings)
    }

    ghost predicate Valid()
      reads this
    {
      WellFormed(Snapshot())
    }

    /** The bot's configuration: its nickname, `cmd_prefix` and `user_roles`. */
    constructor (nickname: string, cmdPrefix: string, userRoles: map<string, seq<string>>)
      ensures Valid()
      ensures this.nickname == nickname && this.cmdPrefix == cmdPrefix && this.userRoles == userRoles
      ensures Snapshot() == Tables(map[], map[], [], []) && effects == [] && calls == []
    {
      this.nickname := nickname;
      this.cmdPrefix := cmdPrefix;
      this.userRoles := userRoles;
      commands, events, tasks, warnings := map[], map[], [], [];
      effects := [];
      calls := [];
    }

    /** `add_command`: binds every alias of the handler to it, printing a
        warning for each alias that is already bound. */
    method AddCommand(h: Handler)
      requires h.tag.CommandTag?
      modifies this`commands, this`warnings
      ensures Snapshot() == Add(old(Snapshot()), h)
    {
      ghost var t0 := Snapshot();
      var aliases := h.tag.aliases;
      for j := 0 to |aliases|
        invariant Snapshot() == AddAliases(t0, aliases[..j], h)
      {
        assert aliases[..j + 1][..j] == aliases[..j];
        if aliases[j] in commands {
          warnings := warnings + [CollisionWarning(aliases[j])];
        }
        commands := commands[aliases[j] := h];
      }
      assert aliases[..|aliases|] == aliases;
    }

    /** `add_event`: appends the handler to its event type's list. */
    method AddEvent(h: Handler)
      requires h.tag.EventTag?
      modifies this`events
      ensures Snapshot() == Add(old(Snapshot()), h)
    {
      var e := h.tag.eventType;
      events := events[e := (if e in events then events[e] else []) + [h]];
    }

    /** `add_task`: appends the handler to the task list. */
    method AddTask(h: Handler)
      requires h.tag.TaskTag?
      modifies this`tasks
      ensures Snapshot() == Add(old(Snapshot()), h)
    {
      tasks := tasks + [h];
    }

    /** `_add_to_registry`: registers the exported tagged attributes of a
        module, in scan order, through the `dispatch` table of the three
        helpers above. */
    method AddToRegistry(m: Module)
      requires Valid()
      modifies this`commands, this`events, this`tasks, this`warnings
      ensures Valid()
      ensures Snapshot() == AddAll(old(Snapshot()), Registered(m.attrs))
    {
      ghost var t0 := Snapshot();
      var registered := Registered(m.attrs);
      for i := 0 to |registered|
        invariant Snapshot() == AddAll(t0, registered[..i])
      {
        var h := registered[i];
        assert registered[..i + 1] == registered[..i] + [h];
        AddAllSnoc(t0, registered[..i], h);
        match h.tag {
          case CommandTag(_, _) => AddCommand(h);
          case EventTag(_) => AddEvent(h);
          case TaskTag(_) => AddTask(h);
        }
      }
      assert registered[..|registered|] == registered;
      AddAllWellFormed(t0, registered);
    }

    /** The inner loop of `_update_registry`: registers every module of one
        plugin location whose import succeeded, in listing order. */
    method LoadLocation(mods: seq<Option<Module>>)
      requires Valid()
      modifies this`commands, this`events, this`tasks, this`warnings
      ensures Valid()
      ensures Snapshot() == AddAll(old(Snapshot()), LoadedFrom(mods))
    {
      ghost var t0 := Snapshot();
      for j := 0 to |mods|
        invariant Valid()
        invariant Snapshot() == AddAll(t0, LoadedFrom(mods[..j]))
      {
        LoadedFromStep(t0, mods, j);
        if mods[j].Some? {
          AddToRegistry(mods[j].value);
        }
      }
      assert mods[..|mods|] == mods;
    }

    /** `_update_registry`: `locations` lists, per configured module path,
        the result of importing each of its modules (None when the import
        failed). With no module path the tables stay as they are. After a
        rebuild the operator summary is printed; its task line raises
        TypeError when there are tasks (`raised`), after the tables are
        already filled. */
    method UpdateRegistry(locations: seq<seq<Option<Module>>>) returns (raised: bool)
      requires Valid()
      modifies this`commands, this`events, this`tasks, this`warnings
      ensures Valid()
      ensures Snapshot() == Rebuild(old(Snapshot()), locations)
      ensures raised <==> locations != [] && SummaryRaises(Snapshot())
    {
      if locations == [] {
        return false;
      }
      ghost var t0 := Snapshot();
      commands, events, tasks := map[], map[], [];
      for i := 0 to |locations|
        invariant Valid()
        invariant Snapshot() == AddAll(Cleared(t0), Loaded(locations[..i]))
      {
        assert locations[..i + 1][..i] == locations[..i];
        LoadLocation(locations[i]);
        AddAllAppend(Cleared(t0), Loaded(locations[..i]), LoadedFrom(locations[i]));
      }
      assert locations[..|locations|] == locations;
      // `', '.join(sorted(x for x in self.tasks))` joins bound methods
      raised := tasks != [];
    }

    /** `_handle_command`, with `self.check_permission` at line 227. */
    method HandleCommand(nick: string, host: string, channel: string, line: string)
      requires Valid()
      modifies this`effects, this`calls
      ensures effects == old(effects) + CommandEffects(commands, userRoles, nickname, nick, host, channel, line)
      ensures calls == old(calls) + CommandCalls(commands, userRoles, nick, host, channel, line)
    {
      var parsed := ParseCommand(line);
      if parsed.None? {
        // `msg[0]` raises IndexError before anything is sent or logged
        return;
      }
      var key := parsed.value.key;
      if key !in commands {
        return;
      }
      var h := commands[key];
      var granted := CheckPermission(h.tag.restrict, nick, host, userRoles);
      if !granted {
        return;
      }
      assert Selected(commands, userRoles, nick, host, line) == Some(h);
      var args := CommandArgs(nick, host, channel, parsed.value.args);
      var outcome := h.body(args);
      calls := calls + [Call(h, args)];
      var response := Response(outcome);
      if Truthy(response) {
        // `self.msg(target, response)`, then `self.logger.log(...)`
        effects := effects + Reply(ReplyTarget(channel, nickname, nick), nickname, response.value);
      }
    }

    /** `_handle_event`: runs every handler of the event type in order,
        containing each one's fault, and announces each truthy response to
        `respond` when `respond` is truthy (None stands for `False`). */
    method HandleEvent(eventType: string, respond: Option<string>, args: seq<string>)
      modifies this`effects, this`calls
      ensures effects == old(effects) + FanOut(EventList(events, eventType), respond, nickname, args)
      ensures calls == old(calls) + Invocations(EventList(events, eventType), args)
    {
      var hs := EventList(events, eventType);
      ghost var effects0, calls0 := effects, calls;
      for i := 0 to |hs|
        invariant effects == effects0 + FanOut(hs[..i], respond, nickname, args)
        invariant calls == calls0 + Invocations(hs[..i], args)
      {
        var outcome := hs[i].body(args);
        calls := calls + [Call(hs[i], args)];
        var response := Response(outcome);
        if Truthy(respond) && Truthy(response) {
          // `self.msg(respond, response)`, then `self.logger.log(...)`
          effects := effects + Reply(respond.value, nickname, response.value);
        }
        FanOutPrefixStep(effects0, hs, i, respond, nickname, args);
        InvocationsPrefixStep(calls0, hs, i, args);
      }
      assert hs[..|hs|] == hs;
    }

    /** `ChiiBot.privmsg`: log the line, fan out "msg", then "pubmsg", then
        route a prefixed line as a command. A sender without exactly one '!'
        makes the unpacking raise before anything happens. */
    method Privmsg(user: string, channel: string, msg: string)
      requires Valid()
      modifies this`effects, this`calls
      ensures SplitUser(user).None? ==> effects == old(effects) && calls == old(calls)
      ensures SplitUser(user).Some? ==>
                var nick, host := SplitUser(user).value.0, SplitUser(user).value.1;
                var payload := [nick, host, channel, msg];
                effects == old(effects) + [Log(LogLine(nick, msg))]
                           + FanOut(EventList(events, "msg"), Some(channel), nickname, payload)
                           + FanOut(EventList(events, "pubmsg"), Some(channel), nickname, payload)
                           + (if StartsWith(msg, cmdPrefix)
                              then CommandEffects(commands, userRoles, nickname, nick, host, channel, msg)
                              else [])
      ensures SplitUser(user).Some? ==>
                var nick, host := SplitUser(user).value.0, SplitUser(user).value.1;
                var payload := [nick, host, channel, msg];
                calls == old(calls) + Invocations(EventList(events, "msg"), payload)
                         + Invocations(EventList(events, "pubmsg"), payload)
                         + (if StartsWith(msg, cmdPrefix)
                            then CommandCalls(commands, userRoles, nick, host, channel, msg)
                            else [])
    {
      var split := SplitUser(user);
      if split.None? {
        return;
      }
      var nick, host := split.value.0, split.value.1;
      effects := effects + [Log(LogLine(nick, msg))];
      var payload := [nick, host, channel, msg];
      HandleEvent("msg", Some(channel), payload);
      // both branches of the source dispatch "pubmsg"
      if channel == nickname {
        HandleEvent("pubmsg", Some(channel), payload);
      } else {
        HandleEvent("pubmsg", Some(channel), payload);
      }
      if StartsWith(msg, cmdPrefix) {
        HandleCommand(nick, host, channel, msg);
      }
    }

    /** `ChiiBot.action`: fan out "action", then log the action. */
    method Action(user: string, channel: string, msg: string)
      modifies this`effects, this`calls
      ensures SplitUser(user).None? ==> effects == old(effects) && calls == old(calls)
      ensures SplitUser(user).Some? ==>
                var nick, host := SplitUser(user).value.0, SplitUser(user).value.1;
                var payload := [nick, host, channel, msg];
                && effects == old(effects) + FanOut(EventList(events, "action"), Some(channel), nickname, payload)
                                           + [Log("* " + nick + " " + msg)]
                && calls == old(calls) + Invocations(EventList(events, "action"), payload)
    {
      var split := SplitUser(user);
      if split.None? {
        return;
      }
      var nick, host := split.value.0, split.value.1;
      HandleEvent("action", Some(channel), [nick, host, channel, msg]);
      effects := effects + [Log("* " + nick + " " + msg)];
    }

    /** `ChiiBot.connectionMade`: log the connection time, rebuild the
        registry, then fire "load" with no reply target, so its handlers run
        but nothing is sent. When the rebuild raises at its summary (some
        task is registered), "load" is never fired. */
    method ConnectionMade(time: string, locations: seq<seq<Option<Module>>>)
      requires Valid()
      modifies this
      ensures Valid()
      ensures Snapshot() == Rebuild(old(Snapshot()), locations)
      ensures effects == old(effects) + [Log("[connected at " + time + "]")]
      ensures locations != [] && TasksIn(Loaded(locations)) != [] ==> calls == old(calls)
      ensures locations == [] || TasksIn(Loaded(locations)) == [] ==>
                calls == old(calls) + Invocations(EventList(events, "load"), [])
    {
      effects := effects + [Log("[connected at " + time + "]")];
      ghost var t0 := Snapshot();
      var raised := UpdateRegistry(locations);
      if locations != [] {
        RebuildRaisesIffTasks(t0, locations);
      }
      if raised {
        return;
      }
      HandleEvent("load", None, []);
      FanOutAnnouncesReplies(EventList(events, "load"), None, nickname, []);
    }
  }

  /** `ChiiBot.alterCollidedNick`: the nickname with a backtick appended. */
  function AlterCollidedNick(nickname: string): (r: string)
    ensures |r| == |nickname| + 1 && r[..|nickname|] == nickname && r[|nickname|] == '`'
  {
    nickname + "`"
  }

  /** What `irc_ERR_NICKNAMEINUSE` does: the messages it sends and the
      nickname it asks for next. */
  datatype NickRetry = NickRetry(sent: seq<Effect>, next: string)

  /** `ChiiBot.irc_ERR_NICKNAMEINUSE`: with an `identpass` configured, ask
      nickserv to ghost the configured nickname and ask for it again;
      otherwise ask for the attempted nickname with a backtick appended. */
  function NicknameInUse(identpass: Option<string>, nickname: string, attempted: string): (r: NickRetry)
    ensures Truthy(identpass) ==> && r.next == nickname && |r.sent| == 1 && r.sent[0].Msg?
                                  && r.sent[0].target == "nickserv"
                                  && r.sent[0].text == "ghost " + nickname + " " + identpass.value
    ensures !Truthy(identpass) ==> r.sent == [] && |r.next| == |attempted| + 1 && r.next[..|attempted|] == attempted
    ensures !Truthy(identpass) ==> r.next == attempted + "`"
  {
    if Truthy(identpass) then NickRetry([Msg("nickserv", "ghost " + nickname + " " + identpass.value)], nickname)
    else NickRetry([], AlterCollidedNick(attempted))
  }

  /** The nickname asked for after `k` collisions in a row, starting from the
      configured one. */
  function AttemptAfter(identpass: Option<string>, nickname: string, k: nat): string {
    if k == 0 then nickname else NicknameInUse(identpass, nickname, AttemptAfter(identpass, nickname, k - 1)).next
  }

  /** With an `identpass`, every collision retries the configured nickname. */
  lemma GhostRetriesSameNick(identpass: Option<string>, nickname: string, k: nat)
    requires Truthy(identpass)
    ensures AttemptAfter(identpass, nickname, k) == nickname
  {
  }

  /** Without an `identpass`, collisions never ask for a nickname twice. */
  lemma NoIdentpassAttemptsFresh(identpass: Option<string>, nickname: string, i: nat, j: nat)
    requires !Truthy(identpass) && i < j
    ensures AttemptAfter(identpass, nickname, i) != AttemptAfter(identpass, nickname, j)
  {
    AttemptsAreAltered(identpass, nickname, i);
    AttemptsAreAltered(identpass, nickname, j);
    AlteredTimesFresh(nickname, i, j);
  }

  lemma {:induction false} AttemptsAreAltered(identpass: Option<string>, nickname: string, k: nat)
    requires !Truthy(identpass)
    ensures AttemptAfter(identpass, nickname, k) == AlteredTimes(nickname, k)
  {
    if k > 0 {
      AttemptsAreAltered(identpass, nickname, k - 1);
    }
  }

  /** Collisions repeated `k` times. */
  function AlteredTimes(nickname: string, k: nat): string {
    if k == 0 then nickname else AlterCollidedNick(AlteredTimes(nickname, k - 1))
  }

  /** Every further collision yields a nickname never tried before: the
      k-th alteration is the nickname followed by k backticks. */
  lemma {:induction false} AlteredTimesFresh(nickname: string, i: nat, j: nat)
    requires i < j
    ensures |AlteredTimes(nickname, j)| == |nickname| + j
    ensures AlteredTimes(nickname, i) != AlteredTimes(nickname, j)
    ensures AlteredTimes(nickname, j)[..|nickname|] == nickname
    ensures forall m :: |nickname| <= m < |nickname| + j ==> AlteredTimes(nickname, j)[m] == '`'
    decreases j
  {
    if i < j - 1 {
      AlteredTimesFresh(nickname, i, j - 1);
    } else if j - 1 > 0 {
      AlteredTimesFresh(nickname, 0, j - 1);
    }
    AlteredTimesLength(nickname, i);
  }

  lemma {:induction false} AlteredTimesLength(nickname: string, k: nat)
    ensures |AlteredTimes(nickname, k)| == |nickname| + k
    decreases k
  {
    if k > 0 {
      AlteredTimesLength(nickname, k - 1);
    }
  }

  /** With the default configuration, the "admin" restriction that the
      built-in `rehash` and `mode` commands carry names no role (the default
      role is "admins"): as written the permission check raises KeyError;
      the fail-closed rule denies. */
  lemma AdminRestrictionUnresolvedByDefault(nick: string, host: string)
    ensures var roles := Config.RoleTable(Config.Get(map[], "user_roles"));
            && CheckPermissionAsWritten(Some("admin"), nick, host, roles).Err?
            && !Permitted(Some("admin"), nick, host, roles)
  {
    Config.DefaultRoleTable();
    assert "admin" != "admins";
  }
}
