/** The backend-to-proxy command relay: the Bukkit side
    (`BackendLinkMain.sendCommandToProxy`) joins a command line and sends it
    as two `writeUTF` strings on the plugin channel "advancedban:command";
    the Velocity side (`BackendCommandListener.onPluginMessage`) reads the
    strings back, splits the command line and dispatches it as the console. */
module CommandRelay {
  import opened ModifiedUtf8
  import opened JavaStrings

  /** U+0020, the separator of a command line. */
  const Space: Unit16 := 0x20

  /** The tag written before every relayed command line. */
  const ExecuteTag: JString := AsciiUnits("EXECUTE_COMMAND")

  /** The frame `writeUTF` produces for the tag; the tag is ASCII, so it
      always fits. */
  function TagFrame(): (r: seq<Byte>)
    ensures WriteUtf(ExecuteTag) == Ok(r)
    ensures |r| == 17
  {
    EncodeAscii(ExecuteTag);
    WriteUtf(ExecuteTag).value
  }

  /** The channel name the backend sends on. */
  const BackendChannel: string := "advancedban:command"

  /** A full command line: `command` followed by " " and each argument, in order. */
  function CommandLine(command: JString, args: seq<JString>): JString {
    if args == [] then command
    else CommandLine(command, args[..|args| - 1]) + [Space] + args[|args| - 1]
  }

  /** The bytes sent for a command line: two `writeUTF` frames, the tag
      first; or the failure the second frame raises. */
  function Payload(line: JString): (r: Result<seq<Byte>>)
    ensures r.Err? <==> |EncodeUnits(line)| > MaxEncodedLength
    ensures r.Ok? ==> r.value == TagFrame() + WriteUtf(line).value
  {
    match WriteUtf(line)
    case Err(e) => Err(e)
    case Ok(frame) => Ok(TagFrame() + frame)
  }

  datatype PluginMessage = PluginMessage(relay: string, channel: string, data: seq<Byte>)

  /** A `DataOutputStream` over a `ByteArrayOutputStream`. */
  class DataOutput {
    var written: seq<Byte>

    constructor ()
      ensures written == []
    {
      written := [];
    }

    method WriteUTF(s: JString) returns (r: Result<()>)
      modifies this
      ensures r.Ok? <==> WriteUtf(s).Ok?
      ensures r.Err? ==> r.error == TooLong && written == old(written)
      ensures r.Ok? ==> written == old(written) + WriteUtf(s).value
    {
      match WriteUtf(s)
      case Err(e) =>
        r := Err(e);
      case Ok(frame) =>
        written := written + frame;
        r := Ok(());
    }
  }

  /** The backend plugin; `sent` holds the plugin messages handed to the
      server's messenger, oldest first. */
  class BackendLink {
    var sent: seq<PluginMessage>

    constructor ()
      ensures sent == []
    {
      sent := [];
    }

    /** Relays `command` with `args` through the first of the `online`
        players. With nobody online, or a command line too long for
        `writeUTF`, nothing is sent. */
    method SendCommandToProxy(command: JString, args: seq<JString>, online: seq<string>)
      modifies this
      ensures online == [] ==> sent == old(sent)
      ensures online != [] && Payload(CommandLine(command, args)).Err? ==> sent == old(sent)
      ensures online != [] && Payload(CommandLine(command, args)).Ok? ==>
                sent == old(sent) + [PluginMessage(online[0], BackendChannel, Payload(CommandLine(command, args)).value)]
    {
      var fullCommand := command;
      var i := 0;
      while i < |args|
        invariant 0 <= i <= |args|
        invariant fullCommand == CommandLine(command, args[..i])
      {
        assert args[..i + 1][..i] == args[..i];
        fullCommand := fullCommand + [Space] + args[i];
        i := i + 1;
      }
      assert args[..i] == args;
      if online == [] {
        return;
      }
      var relayPlayer := online[0];
      var out := new DataOutput();
      var tag := out.WriteUTF(ExecuteTag);
      assert out.written == TagFrame();
      var line := out.WriteUTF(fullCommand);
      if line.Err? {
        return;
      }
      assert out.written == Payload(fullCommand).value;
      sent := sent + [PluginMessage(relayPlayer, BackendChannel, out.written)];
    }
  }

  /** A Velocity channel identifier. */
  datatype ChannelId = MinecraftChannel(namespace: string, name: string) | LegacyChannel(id: string)

  const CommandChannel: ChannelId := MinecraftChannel("advancedban", "command")

  /** Where a plugin message came from; the listener does not look at it. */
  datatype MessageSource = FromPlayer(player: string) | FromServer(server: string)

  datatype Sender = Console

  /** A call of `CommandManager.onCommand`. */
  datatype Dispatch = Dispatch(sender: Sender, command: JString, args: seq<JString>)

  /** `fullCommand.split(" ", 2)`, then the remainder split on " ". */
  function ParseCommandLine(line: JString): (r: (JString, seq<JString>))
    ensures Space !in r.0
    ensures Space !in line ==> r == (line, [])
    ensures Space in line ==> StartsWithCommand(line, r.0)
    ensures Space in line ==> r.1 == JavaStrings.Split(line[|r.0| + 1..], Space)
  {
    var (command, rest) := JavaStrings.SplitFirst(line, Space);
    assert rest.Some? ==> line[|command| + 1..] == rest.value by {
      if rest.Some? {
        assert line == command + [Space] + rest.value;
      }
    }
    (command, if rest.Some? then JavaStrings.Split(rest.value, Space) else [])
  }

  predicate StartsWithCommand(line: JString, command: JString) {
    |command| < |line| && line[..|command|] == command && line[|command|] == Space
  }

  /** What `onPluginMessage` dispatches for a message on `id` carrying `data`. */
  function Received(id: ChannelId, data: seq<Byte>): (r: Option<Dispatch>)
    ensures id != CommandChannel ==> r.None?
    ensures r.Some? ==> r.value.sender == Console
    ensures r.Some? ==> ReadUtf(data, 0).Ok? && ReadUtf(data, 0).value.0 == ExecuteTag
  {
    if id != CommandChannel then None
    else match ReadUtf(data, 0)
      case Err(_) => None
      case Ok((tag, next)) =>
        if tag != ExecuteTag then None
        else match ReadUtf(data, next)
          case Err(_) => None
          case Ok((line, _)) =>
            var (command, args) := ParseCommandLine(line);
            Some(Dispatch(Console, command, args))
  }

  /** A `DataInputStream` over a byte array. */
  class DataInput {
    const data: seq<Byte>
    var pos: nat

    constructor (data: seq<Byte>)
      ensures this.data == data && pos == 0
    {
      this.data := data;
      pos := 0;
    }

    method ReadUTF() returns (r: Result<JString>)
      modifies this
      ensures r.Ok? <==> ReadUtf(data, old(pos)).Ok?
      ensures r.Ok? ==> r.value == ReadUtf(data, old(pos)).value.0 && pos == ReadUtf(data, old(pos)).value.1
    {
      match ReadUtf(data, pos)
      case Err(e) =>
        r := Err(e);
      case Ok((s, next)) =>
        r := Ok(s);
        pos := next;
    }
  }

  /** The proxy listener; `dispatched` holds the commands handed to the
      command manager, oldest first. */
  class BackendCommandListener {
    var dispatched: seq<Dispatch>

    constructor ()
      ensures dispatched == []
    {
      dispatched := [];
    }

    method OnPluginMessage(id: ChannelId, source: MessageSource, data: seq<Byte>)
      modifies this
      ensures Received(id, data).None? ==> dispatched == old(dispatched)
      ensures Received(id, data).Some? ==> dispatched == old(dispatched) + [Received(id, data).value]
    {
      if id != CommandChannel {
        return;
      }
      var input := new DataInput(data);
      var channel := input.ReadUTF();
      if channel.Err? || channel.value != ExecuteTag {
        return;
      }
      var fullCommand := input.ReadUTF();
      if fullCommand.Err? {
        return;
      }
      var parts := JavaStrings.SplitFirst(fullCommand.value, Space);
      var command := parts.0;
      var args := if parts.1.Some? then JavaStrings.Split(parts.1.value, Space) else [];
      dispatched := dispatched + [Dispatch(Console, command, args)];
    }
  }

  lemma {:induction false} CommandLineIsJoin(command: JString, args: seq<JString>)
    ensures CommandLine(command, args) == JavaStrings.Join([command] + args, Space)
  {
    if args != [] {
      var init := args[..|args| - 1];
      CommandLineIsJoin(command, init);
      JoinSnoc([command] + init, args[|args| - 1]);
      assert [command] + init + [args[|args| - 1]] == [command] + args;
    }
  }

  lemma {:induction false} JoinSnoc(parts: seq<JString>, last: JString)
    requires |parts| >= 1
    ensures JavaStrings.Join(parts + [last], Space) == JavaStrings.Join(parts, Space) + [Space] + last
  {
    if |parts| > 1 {
      JoinSnoc(parts[1..], last);
      assert (parts + [last])[1..] == parts[1..] + [last];
    }
  }

  /** The listener recovers the command and arguments the backend joined,
      when the command has no space and every argument is non-empty and has
      no space. */
  lemma ParseJoined(command: JString, args: seq<JString>)
    requires Space !in command
    requires forall i :: 0 <= i < |args| ==> args[i] != [] && Space !in args[i]
    ensures ParseCommandLine(CommandLine(command, args)) == (command, args)
  {
    CommandLineIsJoin(command, args);
    var line := CommandLine(command, args);
    if args == [] {
      assert [command] + args == [command];
    } else {
      assert line == command + [Space] + JavaStrings.Join(args, Space) by {
        assert ([command] + args)[1..] == args;
      }
      var (c, rest) := JavaStrings.SplitFirst(line, Space);
      SplitFirstAfter(command, JavaStrings.Join(args, Space));
      JavaStrings.SplitJoin(args, Space);
    }
  }

  lemma {:induction false} SplitFirstAfter(head: JString, rest: JString)
    requires Space !in head
    ensures JavaStrings.SplitFirst(head + [Space] + rest, Space) == (head, JavaStrings.Some(rest))
  {
    if head != [] {
      assert (head + [Space] + rest)[1..] == head[1..] + [Space] + rest;
      SplitFirstAfter(head[1..], rest);
      assert [head[0]] + head[1..] == head;
    } else {
      assert head + [Space] + rest == [Space] + rest;
    }
  }

  /** The listener reads back the command line the two frames carry. */
  lemma ReceivedPayload(line: JString)
    requires Payload(line).Ok?
    ensures Received(CommandChannel, Payload(line).value)
         == Some(Dispatch(Console, ParseCommandLine(line).0, ParseCommandLine(line).1))
  {
    var lineFrame := WriteUtf(line).value;
    var data := Payload(line).value;
    TagFrameRead(lineFrame);
    SecondFrameRead(line);
    BothFramesRead(data, line);
  }

  /** The tag frame reads back as the tag, whatever follows it. */
  lemma TagFrameRead(rest: seq<Byte>)
    ensures ReadUtf(TagFrame() + rest, 0) == Ok((ExecuteTag, 17))
  {
    var tagFrame := TagFrame();
    assert WriteUtf(ExecuteTag).value == tagFrame;
    ReadWritten(ExecuteTag, [], rest);
    assert [] + tagFrame + rest == tagFrame + rest;
  }

  lemma SecondFrameRead(line: JString)
    requires WriteUtf(line).Ok?
    ensures ReadUtf(TagFrame() + WriteUtf(line).value, 17) == Ok((line, 17 + |WriteUtf(line).value|))
  {
    ReadWritten(line, TagFrame(), []);
    assert TagFrame() + WriteUtf(line).value + [] == TagFrame() + WriteUtf(line).value;
  }

  lemma BothFramesRead(data: seq<Byte>, line: JString)
    requires ReadUtf(data, 0) == Ok((ExecuteTag, 17))
    requires ReadUtf(data, 17).Ok? && ReadUtf(data, 17).value.0 == line
    ensures Received(CommandChannel, data)
         == Some(Dispatch(Console, ParseCommandLine(line).0, ParseCommandLine(line).1))
  {
  }

  /** Round trip: what the backend sends for a command, the proxy
      dispatches as that same command, from the console. */
  lemma RelayRoundTrip(command: JString, args: seq<JString>)
    requires Space !in command
    requires forall i :: 0 <= i < |args| ==> args[i] != [] && Space !in args[i]
    requires Payload(CommandLine(command, args)).Ok?
    ensures Received(CommandChannel, Payload(CommandLine(command, args)).value)
         == Some(Dispatch(Console, command, args))
  {
    ReceivedPayload(CommandLine(command, args));
    ParseJoined(command, args);
  }

  /** A first string other than the tag dispatches nothing. */
  lemma OtherTagIgnored(tag: JString, rest: seq<Byte>)
    requires tag != ExecuteTag
    requires WriteUtf(tag).Ok?
    ensures Received(CommandChannel, WriteUtf(tag).value + rest).None?
  {
    ReadWritten(tag, [], rest);
    assert [] + WriteUtf(tag).value + rest == WriteUtf(tag).value + rest;
  }

  /** A payload cut short inside the command frame dispatches nothing. */
  lemma TruncatedIgnored(line: JString, keep: nat)
    requires Payload(line).Ok?
    requires |TagFrame()| <= keep < |Payload(line).value|
    ensures Received(CommandChannel, Payload(line).value[..keep]).None?
  {
    var tagFrame := TagFrame();
    var tail := WriteUtf(line).value[..keep - 17];
    var cut := Payload(line).value[..keep];
    assert cut == tagFrame + tail;
    TagFrameRead(tail);
    ReadTruncated(line, tagFrame, keep - 17);
    SecondFrameNeeded(cut);
  }

  lemma SecondFrameNeeded(data: seq<Byte>)
    requires ReadUtf(data, 0) == Ok((ExecuteTag, 17))
    requires ReadUtf(data, 17).Err?
    ensures Received(CommandChannel, data).None?
  {
  }
}
