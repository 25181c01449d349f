/**
 * The text `render_GET` answers with: an echo of the requested settings after
 * a successful request, or a one-line value error naming the key that did not
 * parse. A reader for both kinds of reply states that each is unambiguous.
 */
module Response {
  import opened Wrappers
  import opened Text
  import opened Decimal

  /** One echoed setting, `key=value ` (with the trailing space) and a newline. */
  function Line(key: string, value: int): string
  {
    key + "=" + Str(value) + " \n"
  }

  /** The header line followed by one echoed line per entry, in order. */
  function EchoText(entries: seq<(string, int)>): string
    decreases |entries|
  {
    if entries == [] then "Received:\n"
    else
      var last := entries[|entries| - 1];
      EchoText(entries[..|entries| - 1]) + Line(last.0, last.1)
  }

  /** A successful reply: the header, the echoed lines, then an empty line. */
  function EchoBody(entries: seq<(string, int)>): string
  {
    EchoText(entries) + "\n"
  }

  /** The reply to a value that does not parse as an integer. */
  function ErrorBody(key: string): string
  {
    key + " Value Error\n"
  }

  /** A reply as a client reads it. */
  datatype Reply = Received(entries: seq<(string, int)>) | ValueError(key: string)

  /** Reads `key=value ` back; `None` for any other text. */
  function ParseEntry(line: string): Option<(string, int)>
  {
    if |line| > 0 && line[|line| - 1] == ' ' then
      var parts := Split(line[..|line| - 1], '=');
      if |parts| == 2 then
        match ParseInt(parts[1])
        case Some(v) => Some((parts[0], v))
        case None => None
      else None
    else None
  }

  function ParseEntries(lines: seq<string>): Option<seq<(string, int)>>
    decreases |lines|
  {
    if lines == [] then Some([])
    else
      match (ParseEntries(lines[..|lines| - 1]), ParseEntry(lines[|lines| - 1]))
      case (Some(es), Some(e)) => Some(es + [e])
      case _ => None
  }

  const ErrorSuffix: string := " Value Error"

  /** Reads a reply body; `None` for text that neither kind of reply produces. */
  function ParseReply(body: string): Option<Reply>
  {
    var lines := Split(body, '\n');
    if lines[0] == "Received:" then
      if |lines| >= 3 && lines[|lines| - 2..] == ["", ""] then
        match ParseEntries(lines[1..|lines| - 2])
        case Some(es) => Some(Received(es))
        case None => None
      else None
    else if |lines| == 2 && lines[1] == [] && |lines[0]| >= |ErrorSuffix|
            && lines[0][|lines[0]| - |ErrorSuffix|..] == ErrorSuffix then
      Some(ValueError(lines[0][..|lines[0]| - |ErrorSuffix|]))
    else None
  }

  /** Keys that can be echoed unambiguously. */
  predicate PlainKey(key: string)
  {
    '\n' !in key && '=' !in key
  }

  function EntryText(e: (string, int)): string
  {
    e.0 + "=" + Str(e.1) + " "
  }

  function EntryTexts(entries: seq<(string, int)>): (ts: seq<string>)
    ensures |ts| == |entries|
    decreases |entries|
  {
    if entries == [] then []
    else EntryTexts(entries[..|entries| - 1]) + [EntryText(entries[|entries| - 1])]
  }

  lemma {:induction false} EntryTextAt(entries: seq<(string, int)>, i: nat)
    requires i < |entries|
    ensures EntryTexts(entries)[i] == EntryText(entries[i])
    decreases |entries|
  {
    if i < |entries| - 1 {
      EntryTextAt(entries[..|entries| - 1], i);
    }
  }

  lemma {:induction false} EchoTextAsWords(entries: seq<(string, int)>)
    ensures EchoText(entries) == "Received:" + Prefixed(EntryTexts(entries), '\n') + "\n"
    decreases |entries|
  {
    if entries != [] {
      var init, last := entries[..|entries| - 1], entries[|entries| - 1];
      var t := EntryText(last);
      var p := Prefixed(EntryTexts(init), '\n');
      assert EchoText(entries) == ("Received:" + p + "\n") + (t + "\n") by {
        EchoTextAsWords(init);
      }
      Regroup("Received:", p, t, '\n');
      assert p + "\n" + t == Prefixed(EntryTexts(entries), '\n') by {
        PrefixedSnoc(EntryTexts(init), t, '\n');
      }
    }
  }

  lemma EchoBodyAsWords(entries: seq<(string, int)>)
    ensures EchoBody(entries) == "Received:" + Prefixed(EntryTexts(entries) + ["", ""], '\n')
  {
    var p := Prefixed(EntryTexts(entries), '\n');
    EchoTextAsWords(entries);
    PrefixedPair("", "", '\n');
    PrefixedAppend(EntryTexts(entries), ["", ""], '\n');
    calc {
      EchoBody(entries);
      ("Received:" + p + "\n") + "\n";
      "Received:" + (p + "\n\n");
    }
  }

  lemma ParseEntryText(e: (string, int))
    requires PlainKey(e.0)
    ensures ParseEntry(EntryText(e)) == Some(e)
  {
    var line := EntryText(e);
    assert line[..|line| - 1] == e.0 + "=" + Str(e.1);
    NumeralPlain(e.1);
    SplitCons(e.0, '=', Str(e.1));
    ParseStr(e.1);
  }

  lemma ParseEntriesSnoc(lines: seq<string>, line: string, entries: seq<(string, int)>, e: (string, int))
    requires ParseEntries(lines) == Some(entries) && ParseEntry(line) == Some(e)
    ensures ParseEntries(lines + [line]) == Some(entries + [e])
  {
    var all := lines + [line];
    assert all[..|all| - 1] == lines && all[|all| - 1] == line;
  }

  lemma {:induction false} ParseEntryTexts(entries: seq<(string, int)>)
    requires forall i :: 0 <= i < |entries| ==> PlainKey(entries[i].0)
    ensures ParseEntries(EntryTexts(entries)) == Some(entries)
    decreases |entries|
  {
    if entries != [] {
      var init, last := entries[..|entries| - 1], entries[|entries| - 1];
      assert EntryTexts(entries) == EntryTexts(init) + [EntryText(last)];
      ParseEntryText(last);
      ParseEntryTexts(init);
      ParseEntriesSnoc(EntryTexts(init), EntryText(last), init, last);
      InitLast(entries);
    }
  }

  lemma NumeralPlain(n: int)
    ensures '\n' !in Str(n) && '=' !in Str(n) && ' ' !in Str(n)
  {
  }

  lemma EntryTextPlain(e: (string, int))
    requires PlainKey(e.0)
    ensures '\n' !in EntryText(e)
  {
    NumeralPlain(e.1);
  }

  lemma EntryTextsFreeOfNewline(entries: seq<(string, int)>)
    requires forall i :: 0 <= i < |entries| ==> PlainKey(entries[i].0)
    ensures FreeOf(EntryTexts(entries) + ["", ""], '\n')
  {
    var texts := EntryTexts(entries);
    forall i | 0 <= i < |texts| ensures '\n' !in texts[i] {
      EntryTextAt(entries, i);
      EntryTextPlain(entries[i]);
    }
  }

  lemma ParseReceived(body: string, texts: seq<string>, entries: seq<(string, int)>)
    requires Split(body, '\n') == ["Received:"] + (texts + ["", ""])
    requires ParseEntries(texts) == Some(entries)
    ensures ParseReply(body) == Some(Received(entries))
  {
    var lines := Split(body, '\n');
    assert lines[0] == "Received:";
    assert lines[1..|lines| - 2] == texts;
    assert lines[|lines| - 2..] == ["", ""];
  }

  /** A client reading a successful reply recovers exactly the echoed settings. */
  lemma ParseEchoBody(entries: seq<(string, int)>)
    requires forall i :: 0 <= i < |entries| ==> PlainKey(entries[i].0)
    ensures ParseReply(EchoBody(entries)) == Some(Received(entries))
  {
    var texts := EntryTexts(entries);
    EchoBodyAsWords(entries);
    EntryTextsFreeOfNewline(entries);
    SplitPrefixed("Received:", texts + ["", ""], '\n');
    ParseEntryTexts(entries);
    ParseReceived(EchoBody(entries), texts, entries);
  }

  /** A client reading an error reply recovers the offending key. */
  lemma ParseErrorBody(key: string)
    requires '\n' !in key
    ensures ParseReply(ErrorBody(key)) == Some(ValueError(key))
  {
    var first := key + ErrorSuffix;
    assert ErrorBody(key) == first + ['\n'] + "";
    SplitCons(first, '\n', "");
    assert first[..|first| - |ErrorSuffix|] == key;
  }
}
