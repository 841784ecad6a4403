/** What `Chii._handle_command` and `Chii._handle_event` do with a message,
    as functions from the registry and the input to the effects they cause:
    `self.msg(target, text)` becomes `Msg` and `self.logger.log(line)` `Log`. */
module Routing {
  import opened Wrappers
  import opened Text
  import opened Tags
  import opened Permission

  /** One outbound action of the bot, in the order the source performs them. */
  datatype Effect = Msg(target: string, text: string) | Log(line: string)

  /** One invocation of a handler body with its positional arguments. */
  datatype Call = Call(handler: Handler, args: seq<string>)

  /** `"<%s> %s" % (speaker, text)`. */
  function LogLine(speaker: string, text: string): string {
    "<" + speaker + "> " + text
  }

  /** The reply that replaces a raised exception: `'ur shit am fuked! %s' % e`. */
  function Diagnostic(error: string): string {
    "ur shit am fuked! " + error
  }

  /** The response after fault containment at the dispatch boundary. */
  function Response(o: Outcome): Option<string> {
    match o
    case Returned(reply) => reply
    case Fault(error) => Some(Diagnostic(error))
  }

  /** Python truthiness of a response or of `respond`: None and "" are false. */
  predicate Truthy(r: Option<string>) {
    r.Some? && r.value != ""
  }

  /** A fault is never swallowed: it always produces a non-empty reply that
      starts with the diagnostic prefix and ends with the exception text. */
  lemma FaultAlwaysReplies(o: Outcome)
    requires o.Fault?
    ensures Truthy(Response(o))
    ensures Response(o).value[..18] == "ur shit am fuked! " && Response(o).value[18..] == o.error
  {
  }

  /** Sending `text` to `target` and logging it as said by the bot. */
  function Reply(target: string, nickname: string, text: string): seq<Effect> {
    [Msg(target, text), Log(LogLine(nickname, text))]
  }

  // ---------------------------------------------------------------------
  // Command routing

  datatype Parsed = Parsed(key: string, args: seq<string>)

  /** `msg.split()`, then the key `msg[0][1:].lower()` and the arguments
      `msg[1:]`. With no token at all `msg[0]` raises (None here). */
  function ParseCommand(line: string): (r: Option<Parsed>)
    ensures r.None? <==> Split(line) == []
    ensures r.Some? ==> !HasUpper(r.value.key)
    ensures r.Some? ==> |r.value.args| == |Split(line)| - 1
  {
    var tokens := Split(line);
    if tokens == [] then None
    else Some(Parsed(Lower(tokens[0][1..]), tokens[1..]))
  }

  /** A line made of a first word and argument words separated by single
      spaces parses to the first word minus its first character, lower-cased,
      and the argument words verbatim. */
  lemma ParseJoined(first: string, args: seq<string>)
    requires IsWord(first)
    requires Words(args)
    ensures ParseCommand(Join([first] + args)) == Some(Parsed(Lower(first[1..]), args))
  {
    var ws := [first] + args;
    WordsCons(first, args);
    SplitJoin(ws);
    var tokens := Split(Join(ws));
    assert tokens == ws;
    assert tokens[0] == first && tokens[1..] == args;
  }

  /** The general form: however the words of a line are spaced (leading
      whitespace, runs of spaces or tabs between words, trailing whitespace),
      the key is the first word minus its first character, lower-cased, and
      the arguments are the remaining words, verbatim. */
  lemma ParseSpaced(lead: string, first: string, args: seq<string>, gaps: seq<string>)
    requires Blank(lead) && IsWord(first) && Words(args)
    requires Separators([first] + args, gaps)
    ensures ParseCommand(lead + Spaced([first] + args, gaps)) == Some(Parsed(Lower(first[1..]), args))
  {
    var ws := [first] + args;
    WordsCons(first, args);
    SplitSpaced(lead, ws, gaps);
    assert ws[0] == first && ws[1..] == args;
  }

  /** Keys are compared after lower-casing: two parsed lines select the same
      key exactly when their first tokens, past the prefix character, differ
      only in ASCII case (".SAY" routes like ".say"). */
  lemma SameKeyIffCaseVariants(line1: string, line2: string)
    requires ParseCommand(line1).Some? && ParseCommand(line2).Some?
    ensures ParseCommand(line1).value.key == ParseCommand(line2).value.key
            <==> CaseVariants(Split(line1)[0][1..], Split(line2)[0][1..])
  {
    LowerEqualIff(Split(line1)[0][1..], Split(line2)[0][1..]);
  }

  /** ".say hello world" yields the key "say" and the arguments
      ["hello", "world"]. */
  lemma ParseSayHelloWorld()
    ensures ParseCommand(".say hello world") == Some(Parsed("say", ["hello", "world"]))
  {
    JoinSayHelloWorld();
    assert IsWord(".say");
    assert Words(["hello", "world"]) by {
      assert IsWord("hello") && IsWord("world");
    }
    assert Lower(".say"[1..]) == "say" by {
      assert ".say"[1..] == "say";
      assert !HasUpper("say");
    }
    ParseJoined(".say", ["hello", "world"]);
  }

  lemma JoinSayHelloWorld()
    ensures Join([".say"] + ["hello", "world"]) == ".say hello world"
  {
    assert [".say"] + ["hello", "world"] == [".say", "hello", "world"];
    assert Join(["world"]) == "world";
    assert Join(["hello", "world"]) == "hello world";
  }

  /** Keys are lower-cased before lookup, so an alias with an upper-case
      letter can never be invoked. */
  lemma UpperCaseAliasUnreachable(alias: string, line: string)
    requires HasUpper(alias)
    ensures ParseCommand(line).None? || ParseCommand(line).value.key != alias
  {
  }

  /** Private messages (addressed to the bot itself) are answered to the
      sender, everything else to the channel. */
  function ReplyTarget(channel: string, nickname: string, nick: string): string {
    if channel == nickname then nick else channel
  }

  /** `command(nick, host, channel, *args)`. */
  function CommandArgs(nick: string, host: string, channel: string, args: seq<string>): seq<string> {
    [nick, host, channel] + args
  }

  /** The handler a line selects, when it parses, is known and the sender may
      run it. */
  function Selected(commands: map<string, Handler>, roles: map<string, seq<string>>,
                    nick: string, host: string, line: string): (r: Option<Handler>)
    requires forall a :: a in commands ==> commands[a].tag.CommandTag?
    ensures r.Some? ==> && ParseCommand(line).Some?
                        && ParseCommand(line).value.key in commands
                        && r.value == commands[ParseCommand(line).value.key]
                        && Permitted(r.value.tag.restrict, nick, host, roles)
  {
    var p := ParseCommand(line);
    if p.None? || p.value.key !in commands then None
    else if !Permitted(commands[p.value.key].tag.restrict, nick, host, roles) then None
    else Some(commands[p.value.key])
  }

  /** The effects of `_handle_command` (with `self.check_permission`): at
      most one reply, sent to the reply target, followed by its log line. */
  function CommandEffects(commands: map<string, Handler>, roles: map<string, seq<string>>, nickname: string,
                          nick: string, host: string, channel: string, line: string): (r: seq<Effect>)
    requires forall a :: a in commands ==> commands[a].tag.CommandTag?
    ensures r == [] || (|r| == 2 && r[0].Msg? && r[0].target == ReplyTarget(channel, nickname, nick)
                        && r[0].text != "" && r[1] == Log(LogLine(nickname, r[0].text)))
    ensures r != [] ==> Selected(commands, roles, nick, host, line).Some?
  {
    var h := Selected(commands, roles, nick, host, line);
    if h.None? then []
    else
      var resp := Response(h.value.body(CommandArgs(nick, host, channel, ParseCommand(line).value.args)));
      if Truthy(resp) then Reply(ReplyTarget(channel, nickname, nick), nickname, resp.value) else []
  }

  /** The handler invocations `_handle_command` makes: one when a handler is
      selected, none otherwise. */
  ghost function CommandCalls(commands: map<string, Handler>, roles: map<string, seq<string>>,
                              nick: string, host: string, channel: string, line: string): seq<Call>
    requires forall a :: a in commands ==> commands[a].tag.CommandTag?
  {
    var h := Selected(commands, roles, nick, host, line);
    if h.None? then []
    else [Call(h.value, CommandArgs(nick, host, channel, ParseCommand(line).value.args))]
  }

  /** An unknown key produces no message, no log line and no invocation. */
  lemma UnknownCommandIsSilent(commands: map<string, Handler>, roles: map<string, seq<string>>, nickname: string,
                               nick: string, host: string, channel: string, line: string)
    requires forall a :: a in commands ==> commands[a].tag.CommandTag?
    requires ParseCommand(line).None? || ParseCommand(line).value.key !in commands
    ensures CommandEffects(commands, roles, nickname, nick, host, channel, line) == []
    ensures CommandCalls(commands, roles, nick, host, channel, line) == []
  {
  }

  /** A denied command is silent exactly like an unknown one: its handler is
      not run, nothing is sent or logged. */
  lemma DeniedCommandIsSilent(commands: map<string, Handler>, roles: map<string, seq<string>>, nickname: string,
                              nick: string, host: string, channel: string, line: string)
    requires forall a :: a in commands ==> commands[a].tag.CommandTag?
    requires ParseCommand(line).Some? && ParseCommand(line).value.key in commands
    requires !Permitted(commands[ParseCommand(line).value.key].tag.restrict, nick, host, roles)
    ensures CommandEffects(commands, roles, nickname, nick, host, channel, line) == []
    ensures CommandCalls(commands, roles, nick, host, channel, line) == []
  {
  }

  /** A permitted command runs its handler once with (nick, host, channel,
      *args); a non-empty reply is sent to the reply target and logged once,
      and a handler fault is reported as the diagnostic reply. */
  lemma PermittedCommandRuns(commands: map<string, Handler>, roles: map<string, seq<string>>, nickname: string,
                             nick: string, host: string, channel: string, line: string)
    requires forall a :: a in commands ==> commands[a].tag.CommandTag?
    requires ParseCommand(line).Some? && ParseCommand(line).value.key in commands
    requires Permitted(commands[ParseCommand(line).value.key].tag.restrict, nick, host, roles)
    ensures var p := ParseCommand(line).value;
            var h := commands[p.key];
            var o := h.body(CommandArgs(nick, host, channel, p.args));
            && CommandCalls(commands, roles, nick, host, channel, line) == [Call(h, CommandArgs(nick, host, channel, p.args))]
            && (o.Fault? ==>
                  CommandEffects(commands, roles, nickname, nick, host, channel, line)
                  == Reply(ReplyTarget(channel, nickname, nick), nickname, Diagnostic(o.error)))
            && (o.Returned? && Truthy(o.reply) ==>
                  CommandEffects(commands, roles, nickname, nick, host, channel, line)
                  == Reply(ReplyTarget(channel, nickname, nick), nickname, o.reply.value))
            && (o.Returned? && !Truthy(o.reply) ==> CommandEffects(commands, roles, nickname, nick, host, channel, line) == [])
  {
  }

  /** `_handle_command` as the source writes it: line 227 calls a bare
      `check_permission`, which is not a global name, so every known key
      raises NameError outside the try block and nothing is sent. */
  function CommandEffectsAsWritten(commands: map<string, Handler>, line: string): (r: Result<seq<Effect>>)
    ensures r.Ok? ==> r.value == []
    ensures r.Err? <==> ParseCommand(line).None? || ParseCommand(line).value.key in commands
  {
    var p := ParseCommand(line);
    if p.None? then Err("IndexError: list index out of range")
    else if p.value.key !in commands then Ok([])
    else Err("NameError: global name 'check_permission' is not defined")
  }

  lemma ParsePing()
    ensures ParseCommand(".ping") == Some(Parsed("ping", []))
  {
    assert Join([".ping"] + []) == ".ping" by {
      assert [".ping"] + [] == [".ping"];
    }
    assert IsWord(".ping");
    assert Lower(".ping"[1..]) == "ping" by {
      assert ".ping"[1..] == "ping";
      assert !HasUpper("ping");
    }
    ParseJoined(".ping", []);
  }

  /** A concrete command that, as written, never answers: a line parsing to
      `ping` (".ping", by `ParsePing`) bound to an unrestricted handler
      replying "pong" raises NameError, while the corrected router sends
      "pong" to the channel and logs it. */
  lemma PingAnsweredOnlyWhenCorrected(h: Handler, line: string)
    requires ParseCommand(line) == Some(Parsed("ping", []))
    requires h.tag == CommandTag(["ping"], None)
    requires h.body(["zk", "is@whatit.is", "#chii"]) == Returned(Some("pong"))
    ensures CommandEffectsAsWritten(map["ping" := h], line).Err?
    ensures CommandEffects(map["ping" := h], map[], "chii", "zk", "is@whatit.is", "#chii", line)
            == [Msg("#chii", "pong"), Log("<chii> pong")]
  {
    var commands := map["ping" := h];
    assert Selected(commands, map[], "zk", "is@whatit.is", line) == Some(h);
    assert CommandArgs("zk", "is@whatit.is", "#chii", []) == ["zk", "is@whatit.is", "#chii"];
    assert ReplyTarget("#chii", "chii", "zk") == "#chii" by {
      assert "#chii"[0] != "chii"[0];
    }
    LogLinePong();
  }

  lemma LogLinePong()
    ensures LogLine("chii", "pong") == "<chii> pong"
  {
    assert "<" + "chii" == "<chii";
    assert "<chii" + "> " == "<chii> ";
    assert "<chii> " + "pong" == "<chii> pong";
  }

  // ---------------------------------------------------------------------
  // Event fan-out

  /** What one handler of a fan-out adds: its response, sent to `respond`
      and logged, when both `respond` and the response are truthy. */
  function Contribution(h: Handler, respond: Option<string>, nickname: string, args: seq<string>): (r: seq<Effect>)
    ensures r == [] || (&& |r| == 2 && Truthy(respond)
                        && r[0].Msg? && r[0].target == respond.value && r[0].text != ""
                        && r[1] == Log(LogLine(nickname, r[0].text)))
  {
    var response := Response(h.body(args));
    if Truthy(respond) && Truthy(response) then Reply(respond.value, nickname, response.value) else []
  }

  /** The effects of `_handle_event` over the handler list `hs`. */
  function FanOut(hs: seq<Handler>, respond: Option<string>, nickname: string, args: seq<string>): (r: seq<Effect>)
    ensures |r| <= 2 * |hs|
    ensures !Truthy(respond) ==> r == []
    decreases |hs|
  {
    if hs == [] then []
    else FanOut(hs[..|hs| - 1], respond, nickname, args) + Contribution(hs[|hs| - 1], respond, nickname, args)
  }

  /** The invocations of a fan-out: every handler once, in list order. */
  ghost function Invocations(hs: seq<Handler>, args: seq<string>): (r: seq<Call>)
    ensures |r| == |hs| && forall k :: 0 <= k < |hs| ==> r[k] == Call(hs[k], args)
  {
    seq(|hs|, k requires 0 <= k < |hs| => Call(hs[k], args))
  }

  /** Reference definition: the truthy responses of the handlers, in order. */
  function Replies(hs: seq<Handler>, args: seq<string>): (r: seq<string>)
    ensures |r| <= |hs|
    ensures forall k :: 0 <= k < |r| ==> r[k] != ""
    decreases |hs|
  {
    if hs == [] then []
    else
      var r := Response(hs[|hs| - 1].body(args));
      Replies(hs[..|hs| - 1], args) + (if Truthy(r) then [r.value] else [])
  }

  /** Reference definition: each text sent to `target` and logged. */
  function Announce(target: string, nickname: string, texts: seq<string>): seq<Effect>
    decreases |texts|
  {
    if texts == [] then []
    else Announce(target, nickname, texts[..|texts| - 1]) + Reply(target, nickname, texts[|texts| - 1])
  }

  /** One more handler of a fan-out, on top of what was recorded before. */
  lemma FanOutPrefixStep(prior: seq<Effect>, hs: seq<Handler>, i: nat, respond: Option<string>,
                         nickname: string, args: seq<string>)
    requires i < |hs|
    ensures prior + FanOut(hs[..i + 1], respond, nickname, args)
            == prior + FanOut(hs[..i], respond, nickname, args) + Contribution(hs[i], respond, nickname, args)
  {
    assert hs[..i + 1] == hs[..i] + [hs[i]];
    FanOutSnoc(hs[..i], hs[i], respond, nickname, args);
    ConcatAssoc(prior, FanOut(hs[..i], respond, nickname, args), Contribution(hs[i], respond, nickname, args));
  }

  lemma InvocationsPrefixStep(prior: seq<Call>, hs: seq<Handler>, i: nat, args: seq<string>)
    requires i < |hs|
    ensures prior + Invocations(hs[..i + 1], args) == prior + Invocations(hs[..i], args) + [Call(hs[i], args)]
  {
    assert hs[..i + 1] == hs[..i] + [hs[i]];
    InvocationsSnoc(hs[..i], hs[i], args);
    ConcatAssoc(prior, Invocations(hs[..i], args), [Call(hs[i], args)]);
  }

  lemma InvocationsSnoc(hs: seq<Handler>, h: Handler, args: seq<string>)
    ensures Invocations(hs + [h], args) == Invocations(hs, args) + [Call(h, args)]
  {
  }

  lemma FanOutSnoc(hs: seq<Handler>, h: Handler, respond: Option<string>, nickname: string, args: seq<string>)
    ensures FanOut(hs + [h], respond, nickname, args)
            == FanOut(hs, respond, nickname, args) + Contribution(h, respond, nickname, args)
  {
    assert (hs + [h])[..|hs|] == hs;
  }

  /** Fan-out is per handler: the effects for `a + b` are those for `a`
      followed by those for `b`, so nothing a handler of `a` does (a fault
      included) changes what the handlers of `b` contribute. */
  lemma {:induction false} FanOutAppend(a: seq<Handler>, b: seq<Handler>, respond: Option<string>,
                                        nickname: string, args: seq<string>)
    ensures FanOut(a + b, respond, nickname, args) == FanOut(a, respond, nickname, args) + FanOut(b, respond, nickname, args)
    decreases |b|
  {
    if b == [] {
      assert a + b == a;
    } else {
      var init, h := b[..|b| - 1], b[|b| - 1];
      assert b == init + [h];
      ConcatAssoc(a, init, [h]);
      FanOutSnoc(a + init, h, respond, nickname, args);
      FanOutAppend(a, init, respond, nickname, args);
      FanOutSnoc(init, h, respond, nickname, args);
      ConcatAssoc(FanOut(a, respond, nickname, args), FanOut(init, respond, nickname, args),
                  Contribution(h, respond, nickname, args));
    }
  }

  /** A handler that raises in the middle of a fan-out is reported in place,
      and every later handler still runs and contributes as usual. */
  lemma FaultDoesNotStopLaterHandlers(hs: seq<Handler>, k: nat, respond: Option<string>,
                                      nickname: string, args: seq<string>)
    requires k < |hs| && hs[k].body(args).Fault? && Truthy(respond)
    ensures FanOut(hs, respond, nickname, args)
            == FanOut(hs[..k], respond, nickname, args)
               + Reply(respond.value, nickname, Diagnostic(hs[k].body(args).error))
               + FanOut(hs[k + 1..], respond, nickname, args)
  {
    assert hs == hs[..k] + [hs[k]] + hs[k + 1..];
    FanOutAppend(hs[..k] + [hs[k]], hs[k + 1..], respond, nickname, args);
    FanOutSnoc(hs[..k], hs[k], respond, nickname, args);
  }

  /** A fan-out sends every truthy response, in handler order, to `respond`
      and logs each, when `respond` is truthy; otherwise it sends and logs
      nothing at all. */
  lemma {:induction false} FanOutAnnouncesReplies(hs: seq<Handler>, respond: Option<string>,
                                                  nickname: string, args: seq<string>)
    ensures FanOut(hs, respond, nickname, args)
            == if Truthy(respond) then Announce(respond.value, nickname, Replies(hs, args)) else []
    decreases |hs|
  {
    if hs != [] {
      var init, h := hs[..|hs| - 1], hs[|hs| - 1];
      FanOutAnnouncesReplies(init, respond, nickname, args);
      var r := Response(h.body(args));
      var texts := Replies(init, args);
      if Truthy(respond) && Truthy(r) {
        assert Replies(hs, args) == texts + [r.value];
        assert (texts + [r.value])[..|texts|] == texts;
        assert Announce(respond.value, nickname, texts + [r.value])
               == Announce(respond.value, nickname, texts) + Reply(respond.value, nickname, r.value);
      } else if Truthy(respond) {
        assert Replies(hs, args) == texts;
      }
    }
  }
}
