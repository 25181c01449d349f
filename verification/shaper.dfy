/**
 * `shape_traffic`: how the four shaping parameters become a `wondershaper`
 * command line, and the pair of commands every apply issues.
 */
module Shaper {
  import opened Wrappers
  import opened Text
  import opened Decimal

  /** Removes all shaping from the interface; always issued first. */
  const ClearCommand: string := "/wondershaper -ca eth0"

  /** The keyword arguments of `shape_traffic`. */
  datatype Params = Params(rate: int, delay: int, jitter: int, packetError: int)

  /** The rate template: the same rate for upload (`-u`) and download (`-d`). */
  function RateCommand(rate: int): string
  {
    "/wondershaper -a eth0 -u " + Str(rate) + " -d " + Str(rate)
  }

  function LatencyOption(delay: int): string
  {
    " -l " + Str(delay)
  }

  function JitterOption(jitter: int): string
  {
    " -j " + Str(jitter)
  }

  function PacketErrorOption(packetError: int): string
  {
    " -e " + Str(packetError)
  }

  /**
   * The options text appended to the rate command, built as the source does:
   * jitter is appended only when the text already holds the delay option.
   */
  function Options(p: Params): string
  {
    var afterDelay := if p.delay != 0 then LatencyOption(p.delay) else "";
    var afterJitter := if p.jitter != 0 && afterDelay != "" then afterDelay + JitterOption(p.jitter) else afterDelay;
    if p.packetError != 0 then afterJitter + PacketErrorOption(p.packetError) else afterJitter
  }

  /** The constructed rate command. */
  function ShapeCommand(p: Params): string
  {
    RateCommand(p.rate) + Options(p)
  }

  /** The commands handed to the shell by one call of `shape_traffic`, in order. */
  function ApplyCommands(p: Params): seq<string>
  {
    [ClearCommand, ShapeCommand(p)]
  }

  /** The settings the tool is actually given: jitter without delay is dropped. */
  function Effective(p: Params): Params
  {
    if p.delay != 0 then p else p.(jitter := 0)
  }

  /** One option's words: its flag and its value, or nothing. */
  function Flagged(flag: string, value: int, present: bool): seq<string>
  {
    if present then [flag, Str(value)] else []
  }

  /** The words after the rate part, option by option: flag, then value. */
  function OptionWords(p: Params): seq<string>
  {
    Flagged("-l", p.delay, p.delay != 0)
    + Flagged("-j", p.jitter, p.delay != 0 && p.jitter != 0)
    + Flagged("-e", p.packetError, p.packetError != 0)
  }

  function BaseWords(rate: int): seq<string>
  {
    ["/wondershaper", "-a", "eth0", "-u", Str(rate), "-d", Str(rate)]
  }

  lemma NumeralFreeOfSpace(n: int)
    ensures ' ' !in Str(n)
  {
  }

  lemma OptionText(flag: string, value: int, text: string)
    requires text == " " + flag + " " + Str(value)
    ensures Prefixed([flag, Str(value)], ' ') == text
  {
    PrefixedPair(flag, Str(value), ' ');
  }

  lemma FlaggedText(p: Params)
    ensures Prefixed(Flagged("-l", p.delay, p.delay != 0), ' ') == if p.delay != 0 then LatencyOption(p.delay) else ""
    ensures Prefixed(Flagged("-j", p.jitter, p.delay != 0 && p.jitter != 0), ' ')
      == if p.delay != 0 && p.jitter != 0 then JitterOption(p.jitter) else ""
    ensures Prefixed(Flagged("-e", p.packetError, p.packetError != 0), ' ')
      == if p.packetError != 0 then PacketErrorOption(p.packetError) else ""
  {
    OptionText("-l", p.delay, LatencyOption(p.delay));
    OptionText("-j", p.jitter, JitterOption(p.jitter));
    OptionText("-e", p.packetError, PacketErrorOption(p.packetError));
  }

  lemma OptionsPieces(p: Params)
    ensures Options(p) ==
      (if p.delay != 0 then LatencyOption(p.delay) else "")
      + (if p.delay != 0 && p.jitter != 0 then JitterOption(p.jitter) else "")
      + (if p.packetError != 0 then PacketErrorOption(p.packetError) else "")
  {
  }

  lemma OptionsAsWords(p: Params)
    ensures Options(p) == Prefixed(OptionWords(p), ' ')
  {
    var a := Flagged("-l", p.delay, p.delay != 0);
    var b := Flagged("-j", p.jitter, p.delay != 0 && p.jitter != 0);
    var c := Flagged("-e", p.packetError, p.packetError != 0);
    OptionsPieces(p);
    FlaggedText(p);
    PrefixedAppend(a, b, ' ');
    PrefixedAppend(a + b, c, ' ');
  }

  /** The rate template with the numeral left abstract. */
  lemma RateTemplateRegroup(r: string)
    ensures "/wondershaper -a eth0 -u " + r + " -d " + r
      == "/wondershaper" + (" -a eth0" + (" -u " + r) + (" -d " + r))
  {
    assert "/wondershaper -a eth0 -u " == "/wondershaper" + " -a eth0" + " -u ";
  }

  lemma RateTemplateWords(r: string)
    ensures "/wondershaper -a eth0 -u " + r + " -d " + r
      == "/wondershaper" + Prefixed(["-a", "eth0", "-u", r, "-d", r], ' ')
  {
    var a, u, d := ["-a", "eth0"], ["-u", r], ["-d", r];
    assert Prefixed(["-a", "eth0", "-u", r, "-d", r], ' ') == Prefixed(a, ' ') + Prefixed(u, ' ') + Prefixed(d, ' ') by {
      assert ["-a", "eth0", "-u", r, "-d", r] == a + u + d;
      PrefixedAppend(a, u, ' ');
      PrefixedAppend(a + u, d, ' ');
    }
    assert Prefixed(a, ' ') == " -a eth0" by {
      PrefixedPair("-a", "eth0", ' ');
    }
    assert Prefixed(u, ' ') == " -u " + r by {
      PrefixedPair("-u", r, ' ');
    }
    assert Prefixed(d, ' ') == " -d " + r by {
      PrefixedPair("-d", r, ' ');
    }
    RateTemplateRegroup(r);
  }

  lemma RateAsWords(rate: int)
    ensures RateCommand(rate) == "/wondershaper" + Prefixed(BaseWords(rate)[1..], ' ')
  {
    RateTemplateWords(Str(rate));
    assert BaseWords(rate)[1..] == ["-a", "eth0", "-u", Str(rate), "-d", Str(rate)];
  }

  lemma WordsFreeOfSpace(p: Params)
    ensures FreeOf(BaseWords(p.rate)[1..] + OptionWords(p), ' ')
  {
    NumeralFreeOfSpace(p.rate);
    NumeralFreeOfSpace(p.delay);
    NumeralFreeOfSpace(p.jitter);
    NumeralFreeOfSpace(p.packetError);
  }

  /**
   * The command's words: the tool, `-a eth0`, the rate for `-u` and for `-d`,
   * then the options in the fixed order delay, jitter, packet error, each
   * present only when non-zero and jitter only together with delay.
   */
  lemma CommandAsPrefixed(p: Params)
    ensures ShapeCommand(p) == "/wondershaper" + Prefixed(BaseWords(p.rate)[1..] + OptionWords(p), ' ')
  {
    var rest, options := BaseWords(p.rate)[1..], OptionWords(p);
    assert ShapeCommand(p) == "/wondershaper" + Prefixed(rest, ' ') + Prefixed(options, ' ') by {
      RateAsWords(p.rate);
      OptionsAsWords(p);
    }
    PrefixedAppend(rest, options, ' ');
  }

  lemma CommandWords(p: Params)
    ensures Split(ShapeCommand(p), ' ') == BaseWords(p.rate) + OptionWords(p)
  {
    var rest, options := BaseWords(p.rate)[1..], OptionWords(p);
    CommandAsPrefixed(p);
    WordsFreeOfSpace(p);
    SplitPrefixed("/wondershaper", rest + options, ' ');
    assert ["/wondershaper"] + (rest + options) == BaseWords(p.rate) + options;
  }

  /** Reads one optional `flag value` pair off the front of the words; absent means 0. */
  function TakeOption(flag: string, ws: seq<string>): Option<(int, seq<string>)>
  {
    if |ws| >= 2 && ws[0] == flag then
      match ParseInt(ws[1])
      case Some(v) => Some((v, ws[2..]))
      case None => None
    else Some((0, ws))
  }

  function DecodeOptions(ws: seq<string>): Option<(int, int, int)>
  {
    match TakeOption("-l", ws)
    case None => None
    case Some((delay, ws1)) =>
      match TakeOption("-j", ws1)
      case None => None
      case Some((jitter, ws2)) =>
        match TakeOption("-e", ws2)
        case None => None
        case Some((packetError, ws3)) =>
          if ws3 == [] then Some((delay, jitter, packetError)) else None
  }

  /** Reads the words of a rate command back into its settings. */
  function DecodeWords(ws: seq<string>): Option<Params>
  {
    if |ws| >= 7 && ws[..4] == ["/wondershaper", "-a", "eth0", "-u"] && ws[5] == "-d" && ws[6] == ws[4] then
      match (ParseInt(ws[4]), DecodeOptions(ws[7..]))
      case (Some(rate), Some((delay, jitter, packetError))) => Some(Params(rate, delay, jitter, packetError))
      case _ => None
    else None
  }

  /**
   * Reads a rate command back into the settings it carries; `None` for text
   * that is not of that form or gives different upload and download rates.
   */
  function DecodeCommand(cmd: string): Option<Params>
  {
    DecodeWords(Split(cmd, ' '))
  }

  lemma TakeFlagged(flag: string, value: int, present: bool, rest: seq<string>)
    requires !present ==> rest == [] || rest[0] != flag
    ensures TakeOption(flag, Flagged(flag, value, present) + rest) == Some((if present then value else 0, rest))
  {
    if present {
      var ws := [flag, Str(value)] + rest;
      assert ws[0] == flag && ws[1] == Str(value) && ws[2..] == rest;
      ParseStr(value);
    } else {
      assert Flagged(flag, value, present) + rest == rest;
    }
  }

  lemma DecodeOptionWords(p: Params)
    ensures var e := Effective(p);
      DecodeOptions(OptionWords(p)) == Some((e.delay, e.jitter, e.packetError))
  {
    var e := Effective(p);
    var c := Flagged("-e", p.packetError, p.packetError != 0);
    var b := Flagged("-j", p.jitter, p.delay != 0 && p.jitter != 0);
    var a := Flagged("-l", p.delay, p.delay != 0);
    assert TakeOption("-e", c) == Some((e.packetError, [])) by {
      TakeFlagged("-e", p.packetError, p.packetError != 0, []);
      assert c + [] == c;
    }
    assert TakeOption("-j", b + c) == Some((e.jitter, c)) by {
      TakeFlagged("-j", p.jitter, p.delay != 0 && p.jitter != 0, c);
    }
    assert TakeOption("-l", a + (b + c)) == Some((e.delay, b + c)) by {
      TakeFlagged("-l", p.delay, p.delay != 0, b + c);
    }
    assert OptionWords(p) == a + (b + c);
  }

  lemma DecodeBaseWords(rate: int, rest: seq<string>)
    ensures DecodeWords(BaseWords(rate) + rest) ==
      match DecodeOptions(rest)
      case Some((delay, jitter, packetError)) => Some(Params(rate, delay, jitter, packetError))
      case None => None
  {
    var ws := BaseWords(rate) + rest;
    assert ws[..4] == ["/wondershaper", "-a", "eth0", "-u"];
    assert ws[4] == Str(rate) && ws[5] == "-d" && ws[6] == Str(rate);
    assert ws[7..] == rest;
    ParseStr(rate);
  }

  /** The constructed command carries exactly the effective settings. */
  lemma DecodeShapeCommand(p: Params)
    ensures DecodeCommand(ShapeCommand(p)) == Some(Effective(p))
  {
    CommandWords(p);
    DecodeBaseWords(p.rate, OptionWords(p));
    DecodeOptionWords(p);
  }

  /** Jitter is lost exactly when there is no delay: the command ignores it then. */
  lemma JitterDroppedWithoutDelay(p: Params)
    ensures ShapeCommand(Effective(p)) == ShapeCommand(p)
  {
  }

  /** Two settings give the same command exactly when their effective settings agree. */
  lemma CommandDeterminesSettings(p: Params, q: Params)
    ensures ShapeCommand(p) == ShapeCommand(q) <==> Effective(p) == Effective(q)
  {
    DecodeShapeCommand(p);
    DecodeShapeCommand(q);
    JitterDroppedWithoutDelay(p);
    JitterDroppedWithoutDelay(q);
  }

  lemma NumeralIsNotFlag(n: int, flag: string)
    requires |flag| == 2 && flag[0] == '-' && !IsDigit(flag[1])
    ensures Str(n) != flag
  {
  }

  lemma FlagInWords(p: Params, flag: string)
    requires flag == "-l" || flag == "-j" || flag == "-e"
    ensures flag in BaseWords(p.rate) + OptionWords(p) <==>
      (flag == "-l" && p.delay != 0) || (flag == "-j" && p.delay != 0 && p.jitter != 0)
      || (flag == "-e" && p.packetError != 0)
  {
    NumeralIsNotFlag(p.rate, flag);
    NumeralIsNotFlag(p.delay, flag);
    NumeralIsNotFlag(p.jitter, flag);
    NumeralIsNotFlag(p.packetError, flag);
    assert flag !in BaseWords(p.rate);
  }

  /**
   * Each option flag appears in the command exactly when its setting is
   * non-zero, and the jitter flag only when delay is non-zero too.
   */
  lemma OptionPresence(p: Params)
    ensures var ws := Split(ShapeCommand(p), ' ');
      && ("-l" in ws <==> p.delay != 0)
      && ("-j" in ws <==> p.delay != 0 && p.jitter != 0)
      && ("-e" in ws <==> p.packetError != 0)
  {
    CommandWords(p);
    FlagInWords(p, "-l");
    FlagInWords(p, "-j");
    FlagInWords(p, "-e");
  }

  /** The start-up settings give the plain rate command with no options. */
  lemma DefaultCommand()
    ensures ShapeCommand(Params(80000, 0, 0, 0)) == "/wondershaper -a eth0 -u 80000 -d 80000"
  {
    var r := Str(80000);
    assert r == "80000" by {
      assert NatText(8) == "8";
      assert NatText(80) == "80";
      assert NatText(800) == "800";
      assert NatText(8000) == "8000";
    }
    assert Options(Params(80000, 0, 0, 0)) == "";
  }
}
