/**
 * Reading the configuration: lines of "key: value" override the defaults, one
 * after another. Comment lines and lines without a colon are skipped; an
 * unknown key or a value that does not parse ends the read with an error.
 * Opening the file and splitting it into lines are outside the model: the
 * input is the sequence of lines.
 */
module Configuration {
  import opened Wrappers
  import opened GoStrings
  import ExifScrubber

  type u16 = ExifScrubber.u16

  datatype Config = Config(
    port: int,
    linkPrefix: string,
    fileDir: string,
    linkLength: int,
    scrubExif: bool,
    exifAllowedIds: seq<u16>,
    exifAllowedPaths: seq<string>,
    exifAbortOnError: bool)

  datatype ConfigError =
    | BadValue(key: string, value: string)   // the value of a number or flag key does not parse
    | UnexpectedKey(key: string)

  const DefaultConfig := Config(4711, "https://jaf.example.com/", "/var/www/jaf/", 5, true, [], [], true)

  const KnownKeys: set<string> := {"Port", "LinkPrefix", "FileDir", "LinkLength", "ScrubExif",
                                   "ExifAllowedIds", "ExifAllowedPaths", "ExifAbortOnError"}

  // ---------------------------------------------------------------------------
  // Specification

  /** A trimmed line starting with "#" is a comment. */
  predicate IsComment(line: string)
  {
    |line| > 0 && line[0] == '#'
  }

  /** The trimmed key and value of a line, or None for a comment or a line without a colon. */
  function KeyValue(raw: string): Option<(string, string)>
  {
    var line := TrimSpace(raw);
    if IsComment(line) then None
    else
      var (key, val, found) := Cut(line, ':');
      if !found then None else Some((TrimSpace(key), TrimSpace(val)))
  }

  /** One id of the id list: "0x" and hexadecimal digits, or decimal digits; 16 bits at most. */
  function ParseId(piece: string): (r: Option<u16>)
  {
    var parsed := if |piece| >= 2 && piece[..2] == "0x" then ParseUint(piece[2..], 16, 16) else ParseUint(piece, 10, 16);
    match parsed
    case None => None
    case Some(v) => Pow2Of16(); Some(v as u16)
  }

  lemma Pow2Of16()
    ensures Pow2(16) == 0x1_0000
  {
    assert Pow2(4) == 16;
    assert Pow2(8) == 256;
    assert Pow2(12) == 4096;
  }

  /** The ids of the pieces that parse, in order; the others are skipped. */
  function ParseIds(pieces: seq<string>): seq<u16>
  {
    if pieces == [] then []
    else
      var last := pieces[|pieces| - 1];
      ParseIds(pieces[..|pieces| - 1]) + (match ParseId(last) case Some(v) => [v] case None => [])
  }

  /** The configuration after the line with key `key` and value `val`. */
  function ApplyKey(c: Config, key: string, val: string): Result<Config, ConfigError>
  {
    if key == "Port" then
      match Atoi(val)
      case None => Err(BadValue(key, val))
      case Some(n) => Ok(c.(port := n))
    else if key == "LinkPrefix" then Ok(c.(linkPrefix := val))
    else if key == "FileDir" then Ok(c.(fileDir := val))
    else if key == "LinkLength" then
      match Atoi(val)
      case None => Err(BadValue(key, val))
      case Some(n) => Ok(c.(linkLength := n))
    else if key == "ScrubExif" then
      match ParseBool(val)
      case None => Err(BadValue(key, val))
      case Some(b) => Ok(c.(scrubExif := b))
    else if key == "ExifAllowedIds" then
      if val == "" then Ok(c) else Ok(c.(exifAllowedIds := ParseIds(Split(val, ' '))))
    else if key == "ExifAllowedPaths" then
      if val == "" then Ok(c) else Ok(c.(exifAllowedPaths := Split(val, ' ')))
    else if key == "ExifAbortOnError" then
      match ParseBool(val)
      case None => Err(BadValue(key, val))
      case Some(b) => Ok(c.(exifAbortOnError := b))
    else Err(UnexpectedKey(key))
  }

  function ApplyLine(c: Config, raw: string): Result<Config, ConfigError>
  {
    match KeyValue(raw)
    case None => Ok(c)
    case Some((key, val)) => ApplyKey(c, key, val)
  }

  /** The configuration after the lines, starting from `c`; the first error ends the read. */
  function ParseFrom(c: Config, lines: seq<string>): Result<Config, ConfigError>
    decreases |lines|
  {
    if lines == [] then Ok(c)
    else
      match ApplyLine(c, lines[0])
      case Err(e) => Err(e)
      case Ok(c') => ParseFrom(c', lines[1..])
  }

  // ---------------------------------------------------------------------------
  // The reader

  /** ConfigFromFile, after the file has been split into lines. */
  method ConfigFromLines(lines: seq<string>) returns (r: Result<Config, ConfigError>)
    ensures r == ParseFrom(DefaultConfig, lines)
  {
    var retval := DefaultConfig;
    for i := 0 to |lines|
      invariant ParseFrom(DefaultConfig, lines) == ParseFrom(retval, lines[i..])
    {
      assert lines[i..][1..] == lines[i + 1..];
      var line := TrimSpace(lines[i]);
      if |line| > 0 && line[0] == '#' {
        continue;
      }
      var (key, val, found) := Cut(line, ':');
      if !found {
        continue;
      }
      key := TrimSpace(key);
      val := TrimSpace(val);
      if key == "Port" {
        var parsed := Atoi(val);
        if parsed.None? {
          return Err(BadValue(key, val));
        }
        retval := retval.(port := parsed.value);
      } else if key == "LinkPrefix" {
        retval := retval.(linkPrefix := val);
      } else if key == "FileDir" {
        retval := retval.(fileDir := val);
      } else if key == "LinkLength" {
        var parsed := Atoi(val);
        if parsed.None? {
          return Err(BadValue(key, val));
        }
        retval := retval.(linkLength := parsed.value);
      } else if key == "ScrubExif" {
        var parsed := ParseBool(val);
        if parsed.None? {
          return Err(BadValue(key, val));
        }
        retval := retval.(scrubExif := parsed.value);
      } else if key == "ExifAllowedIds" {
        if val != "" {
          var stringIds := Split(val, ' ');
          var parsedIds := ParseIdList(stringIds);
          retval := retval.(exifAllowedIds := parsedIds);
        }
      } else if key == "ExifAllowedPaths" {
        if val != "" {
          var paths := Split(val, ' ');
          retval := retval.(exifAllowedPaths := paths);
        }
      } else if key == "ExifAbortOnError" {
        var parsed := ParseBool(val);
        if parsed.None? {
          return Err(BadValue(key, val));
        }
        retval := retval.(exifAbortOnError := parsed.value);
      } else {
        return Err(UnexpectedKey(key));
      }
    }
    return Ok(retval);
  }

  /** The loop that appends every id that parses and skips the others. */
  method ParseIdList(stringIds: seq<string>) returns (parsedIds: seq<u16>)
    ensures parsedIds == ParseIds(stringIds)
  {
    parsedIds := [];
    for k := 0 to |stringIds|
      invariant parsedIds == ParseIds(stringIds[..k])
    {
      assert stringIds[..k + 1][..k] == stringIds[..k];
      var stringId := stringIds[k];
      var parsed: Option<nat>;
      if |stringId| >= 2 && stringId[..2] == "0x" {
        var hexStringId := stringId[2..];
        parsed := ParseUint(hexStringId, 16, 16);
      } else {
        parsed := ParseUint(stringId, 10, 16);
      }
      if parsed.None? {
        continue;
      }
      Pow2Of16();
      parsedIds := parsedIds + [parsed.value as u16];
    }
    assert stringIds[..|stringIds|] == stringIds;
  }

  // ---------------------------------------------------------------------------
  // Properties

  /** A line is skipped exactly when, trimmed, it is a comment or has no colon. */
  lemma SkippedLines(raw: string)
    ensures KeyValue(raw).None? <==> (IsComment(TrimSpace(raw)) || ':' !in TrimSpace(raw))
  {
  }

  /** Lines that are all skipped leave the configuration as it was. */
  lemma {:induction false} SkippedLinesKeepConfig(c: Config, lines: seq<string>)
    requires forall k :: 0 <= k < |lines| ==> KeyValue(lines[k]).None?
    ensures ParseFrom(c, lines) == Ok(c)
    decreases |lines|
  {
    if lines != [] {
      assert KeyValue(lines[0]).None?;
      SkippedLinesKeepConfig(c, lines[1..]);
    }
  }

  /** Without an effective line the read yields the defaults. */
  lemma NoEffectiveLinesGiveDefaults(lines: seq<string>)
    requires forall k :: 0 <= k < |lines| ==> KeyValue(lines[k]).None?
    ensures ParseFrom(DefaultConfig, lines).Ok?
    ensures var c := ParseFrom(DefaultConfig, lines).value;
      && c.port == 4711 && c.linkPrefix == "https://jaf.example.com/" && c.fileDir == "/var/www/jaf/"
      && c.linkLength == 5 && c.scrubExif && c.exifAllowedIds == [] && c.exifAllowedPaths == []
      && c.exifAbortOnError
  {
    SkippedLinesKeepConfig(DefaultConfig, lines);
  }

  /** Key and value are split at the first colon, so the value keeps any later colon. */
  lemma FirstColonSplit(raw: string, i: nat)
    requires var line := TrimSpace(raw);
      !IsComment(line) && i < |line| && line[i] == ':' && ':' !in line[..i]
    ensures var line := TrimSpace(raw);
      KeyValue(raw) == Some((TrimSpace(line[..i]), TrimSpace(line[i + 1..])))
  {
    var line := TrimSpace(raw);
    var (key, val, found) := Cut(line, ':');
    assert line == line[..i] + [':'] + line[i + 1..];
    SeparatorUnique(key, val, line[..i], line[i + 1..], ':');
  }

  /** Only the eight known keys are accepted. */
  lemma UnexpectedKeyIffUnknown(c: Config, key: string, val: string)
    ensures (ApplyKey(c, key, val) == Err(UnexpectedKey(key))) <==> key !in KnownKeys
  {
  }

  /** A line with an unknown key fails. */
  lemma UnknownKeyLineFails(c: Config, raw: string)
    requires KeyValue(raw).Some? && KeyValue(raw).value.0 !in KnownKeys
    ensures ApplyLine(c, raw).Err?
  {
    var (key, val) := KeyValue(raw).value;
    UnexpectedKeyIffUnknown(c, key, val);
  }

  /** One step of the read: a failing first line fails it, a succeeding one hands on its result. */
  lemma ParseFromFirst(c: Config, lines: seq<string>)
    requires lines != []
    ensures ApplyLine(c, lines[0]).Err? ==> ParseFrom(c, lines).Err?
    ensures ApplyLine(c, lines[0]).Ok? ==> ParseFrom(c, lines) == ParseFrom(ApplyLine(c, lines[0]).value, lines[1..])
  {
  }

  /** A line that fails whatever the configuration before it, anywhere in the file, makes the whole read fail. */
  lemma {:induction false} FailingLineFails(c: Config, before: seq<string>, line: string, after: seq<string>)
    requires forall c' :: ApplyLine(c', line).Err?
    ensures ParseFrom(c, before + [line] + after).Err?
    decreases |before|
  {
    var lines := before + [line] + after;
    if before == [] {
      assert lines == [line] + after;
      ParseFromFirst(c, lines);
    } else {
      assert lines[0] == before[0];
      assert lines[1..] == before[1..] + [line] + after;
      var first := ApplyLine(c, before[0]);
      if first.Ok? {
        FailingLineFails(first.value, before[1..], line, after);
      }
      LaterFailure(c, lines);
    }
  }

  lemma LaterFailure(c: Config, lines: seq<string>)
    requires 0 < |lines|
    requires ApplyLine(c, lines[0]).Ok? ==> ParseFrom(ApplyLine(c, lines[0]).value, lines[1..]).Err?
    ensures ParseFrom(c, lines).Err?
  {
    ParseFromFirst(c, lines);
  }

  /** A line with an unknown key anywhere makes the whole read fail. */
  lemma UnknownKeyFails(c: Config, before: seq<string>, line: string, after: seq<string>)
    requires KeyValue(line).Some? && KeyValue(line).value.0 !in KnownKeys
    ensures ParseFrom(c, before + [line] + after).Err?
  {
    forall c': Config ensures ApplyLine(c', line).Err? {
      UnknownKeyLineFails(c', line);
    }
    FailingLineFails(c, before, line, after);
  }

  /**
   * A Port or LinkLength line whose value is no int64, or a ScrubExif or
   * ExifAbortOnError line whose value is no boolean, anywhere makes the whole read fail.
   */
  lemma BadValueFailsRead(c: Config, before: seq<string>, line: string, after: seq<string>)
    requires KeyValue(line).Some?
    requires var (key, val) := KeyValue(line).value;
      || ((key == "Port" || key == "LinkLength") && Atoi(val).None?)
      || ((key == "ScrubExif" || key == "ExifAbortOnError") && ParseBool(val).None?)
    ensures ParseFrom(c, before + [line] + after).Err?
  {
    var (key, val) := KeyValue(line).value;
    forall c': Config ensures ApplyLine(c', line).Err? {
      BadValuesFail(c', key, val);
    }
    FailingLineFails(c, before, line, after);
  }

  /** A value that does not parse as the key's number or flag makes the line fail. */
  lemma BadValuesFail(c: Config, key: string, val: string)
    ensures (key == "Port" || key == "LinkLength") && Atoi(val).None? ==> ApplyKey(c, key, val) == Err(BadValue(key, val))
    ensures (key == "ScrubExif" || key == "ExifAbortOnError") && ParseBool(val).None? ==> ApplyKey(c, key, val) == Err(BadValue(key, val))
  {
  }

  /** An id is "0x" and hex digits, or decimal digits, and below 2^16; an empty piece is none. */
  lemma ParseIdMeaning(piece: string)
    ensures ParseId("") == None
    ensures var hex := |piece| >= 2 && piece[..2] == "0x";
      var digits := if hex then piece[2..] else piece;
      var base := if hex then 16 else 10;
      && (ParseId(piece).Some? <==> digits != [] && AllDigits(digits, base) && DigitsValue(digits, base) < 0x1_0000)
      && (ParseId(piece).Some? ==> ParseId(piece).value as int == DigitsValue(digits, base))
  {
    Pow2Of16();
  }

  /** An id is in the list exactly when some piece parses to it. */
  lemma {:induction false} IdsMembership(pieces: seq<string>, v: u16)
    ensures v in ParseIds(pieces) <==> exists k :: 0 <= k < |pieces| && ParseId(pieces[k]) == Some(v)
    decreases |pieces|
  {
    if pieces != [] {
      var init := pieces[..|pieces| - 1];
      IdsMembership(init, v);
      if exists k :: 0 <= k < |init| && ParseId(init[k]) == Some(v) {
        var k :| 0 <= k < |init| && ParseId(init[k]) == Some(v);
        assert pieces[k] == init[k];
      }
      if exists k :: 0 <= k < |pieces| && ParseId(pieces[k]) == Some(v) {
        var k :| 0 <= k < |pieces| && ParseId(pieces[k]) == Some(v);
        if k < |init| {
          assert init[k] == pieces[k];
        }
      }
    }
  }

  /** The ids of two runs of pieces are the ids of the first followed by those of the second. */
  lemma {:induction false} IdsAppend(a: seq<string>, b: seq<string>)
    ensures ParseIds(a + b) == ParseIds(a) + ParseIds(b)
    decreases |b|
  {
    if b == [] {
      assert a + b == a;
    } else {
      var init := b[..|b| - 1];
      assert (a + b)[..|a + b| - 1] == a + init;
      assert (a + b)[|a + b| - 1] == b[|b| - 1];
      IdsAppend(a, init);
    }
  }

  /** A piece left empty by a doubled space is skipped wherever it stands. */
  lemma EmptyPieceSkipped(a: seq<string>, b: seq<string>)
    ensures ParseIds(a + [""] + b) == ParseIds(a + b)
  {
    IdsAppend(a + [""], b);
    IdsAppend(a, [""]);
    IdsAppend(a, b);
    assert ParseIds([""]) == [];
    assert ParseIds(a + [""]) == ParseIds(a);
  }

  /** A hexadecimal id needs "0x" in front. */
  lemma ExampleHexId()
    ensures ParseId("0x9209") == Some(0x9209)
    ensures ParseId("0x") == None
  {
    Pow2Of16();
    assert "0x9209"[..2] == "0x" && "0x9209"[2..] == "9209";
    assert "9209"[..3] == "920" && "920"[..2] == "92" && "92"[..1] == "9" && "9"[..0] == "";
    assert DigitsValue("92", 16) == 0x92;
    assert DigitsValue("9209", 16) == 0x9209;
    assert "0x"[2..] == [];
  }

  lemma ExampleDecimalId()
    ensures ParseId("274") == Some(274)
  {
    Pow2Of16();
    assert "274"[..2] == "27" && "27"[..1] == "2" && "2"[..0] == "";
    assert DigitsValue("274", 10) == 274;
  }

  /** Neither a sign nor a stray letter is accepted. */
  lemma ExampleRejectedIds()
    ensures ParseId("9209x") == None
    ensures ParseId("-1") == None
  {
    assert !AllDigits("9209x", 10) by { assert DigitValue("9209x"[4]) == 33; }
    assert !AllDigits("-1", 10) by { assert DigitValue("-1"[0]) == 36; }
  }

  /** 2^16 does not fit in an id. */
  lemma ExampleTooLargeId()
    ensures ParseId("65536") == None
  {
    Pow2Of16();
    assert "65536"[..4] == "6553" && "6553"[..3] == "655" && "655"[..2] == "65" && "65"[..1] == "6";
    assert "65536"[..2][0] == '6';
    assert DigitsValue("655", 10) == 655;
    assert DigitsValue("6553", 10) == 6553;
    assert DigitsValue("65536", 10) == 65536;
  }

  /** An empty value leaves the id and path lists as they were. */
  lemma EmptyValueKeepsLists(c: Config)
    ensures ApplyKey(c, "ExifAllowedIds", "") == Ok(c)
    ensures ApplyKey(c, "ExifAllowedPaths", "") == Ok(c)
  {
  }

  /** The path list is the value cut at single spaces: joining it gives the value back. */
  lemma PathsFromValue(c: Config, val: string)
    requires val != ""
    ensures ApplyKey(c, "ExifAllowedPaths", val).Ok?
    ensures var c' := ApplyKey(c, "ExifAllowedPaths", val).value;
      && c'.(exifAllowedPaths := c.exifAllowedPaths) == c
      && Join(c'.exifAllowedPaths, ' ') == val
      && (forall k :: 0 <= k < |c'.exifAllowedPaths| ==> ' ' !in c'.exifAllowedPaths[k])
  {
  }

  /** Paths without spaces, written joined by spaces, are read back exactly. */
  lemma PathsRoundTrip(c: Config, paths: seq<string>)
    requires |paths| >= 1 && forall k :: 0 <= k < |paths| ==> ' ' !in paths[k]
    requires Join(paths, ' ') != ""
    ensures ApplyKey(c, "ExifAllowedPaths", Join(paths, ' ')) == Ok(c.(exifAllowedPaths := paths))
  {
    var val := Join(paths, ' ');
    PathsValue(c, val);
    SplitJoin(paths, ' ');
  }

  lemma PathsValue(c: Config, val: string)
    requires val != ""
    ensures ApplyKey(c, "ExifAllowedPaths", val) == Ok(c.(exifAllowedPaths := Split(val, ' ')))
  {
  }

  /** Reading two runs of lines is reading the first and then the second. */
  lemma {:induction false} ParseFromAppend(c: Config, a: seq<string>, b: seq<string>)
    ensures ParseFrom(c, a + b) == match ParseFrom(c, a) case Err(e) => Err(e) case Ok(c') => ParseFrom(c', b)
    decreases |a|
  {
    if a == [] {
      assert a + b == b;
    } else {
      assert (a + b)[0] == a[0] && (a + b)[1..] == a[1..] + b;
      match ApplyLine(c, a[0])
      case Err(_) =>
      case Ok(c') => ParseFromAppend(c', a[1..], b);
    }
  }

  /** `a` and `b` agree on every field except the one that `key` names. */
  predicate SameExcept(a: Config, b: Config, key: string)
  {
    && (key == "Port" || a.port == b.port)
    && (key == "LinkPrefix" || a.linkPrefix == b.linkPrefix)
    && (key == "FileDir" || a.fileDir == b.fileDir)
    && (key == "LinkLength" || a.linkLength == b.linkLength)
    && (key == "ScrubExif" || a.scrubExif == b.scrubExif)
    && (key == "ExifAllowedIds" || a.exifAllowedIds == b.exifAllowedIds)
    && (key == "ExifAllowedPaths" || a.exifAllowedPaths == b.exifAllowedPaths)
    && (key == "ExifAbortOnError" || a.exifAbortOnError == b.exifAbortOnError)
  }

  /** `a` and `b` agree on the field that `key` names. */
  predicate SameField(a: Config, b: Config, key: string)
  {
    && (key == "Port" ==> a.port == b.port)
    && (key == "LinkPrefix" ==> a.linkPrefix == b.linkPrefix)
    && (key == "FileDir" ==> a.fileDir == b.fileDir)
    && (key == "LinkLength" ==> a.linkLength == b.linkLength)
    && (key == "ScrubExif" ==> a.scrubExif == b.scrubExif)
    && (key == "ExifAllowedIds" ==> a.exifAllowedIds == b.exifAllowedIds)
    && (key == "ExifAllowedPaths" ==> a.exifAllowedPaths == b.exifAllowedPaths)
    && (key == "ExifAbortOnError" ==> a.exifAbortOnError == b.exifAbortOnError)
  }

  /** An empty list value, which keeps the list as it was instead of setting it. */
  predicate KeepsList(key: string, val: string)
  {
    val == "" && (key == "ExifAllowedIds" || key == "ExifAllowedPaths")
  }

  /** A successful key line changes no field but its own. */
  lemma KeyLineSetsOwnField(c: Config, key: string, val: string)
    ensures ApplyKey(c, key, val).Ok? ==> SameExcept(ApplyKey(c, key, val).value, c, key)
  {
  }

  /**
   * Whether a key line succeeds, and the value it sets, do not depend on the
   * configuration before it.
   */
  lemma KeyLineIndependent(c1: Config, c2: Config, key: string, val: string)
    ensures ApplyKey(c1, key, val).Ok? <==> ApplyKey(c2, key, val).Ok?
    ensures ApplyKey(c1, key, val).Ok? && !KeepsList(key, val) ==>
              SameField(ApplyKey(c1, key, val).value, ApplyKey(c2, key, val).value, key)
  {
  }

  /**
   * A later line for a key overrides whatever the earlier lines set for it: after
   * it, the key's field is what the line alone sets, and every other field is as
   * the earlier lines left it.
   */
  lemma LaterLineOverwrites(c: Config, lines: seq<string>, line: string, key: string, val: string)
    requires ParseFrom(c, lines).Ok?
    requires KeyValue(line) == Some((key, val)) && ApplyKey(c, key, val).Ok? && !KeepsList(key, val)
    ensures ParseFrom(c, lines + [line]).Ok?
    ensures SameField(ParseFrom(c, lines + [line]).value, ApplyKey(c, key, val).value, key)
    ensures SameExcept(ParseFrom(c, lines + [line]).value, ParseFrom(c, lines).value, key)
  {
    var c' := ParseFrom(c, lines).value;
    ParseFromAppend(c, lines, [line]);
    KeyLineSetsOwnField(c', key, val);
    KeyLineIndependent(c', c, key, val);
    assert ParseFrom(c', [line]) == ParseFrom(ApplyKey(c', key, val).value, []);
  }

  // ---------------------------------------------------------------------------
  // The id list, read back

  /** Every id reads back from its decimal form. */
  lemma DecimalIdRoundTrip(v: u16)
    ensures ParseId(FormatUint(v as nat, 10)) == Some(v)
  {
    var piece := FormatUint(v as nat, 10);
    Pow2Of16();
    FormatUintDigits(v as nat, 10);
    if |piece| >= 2 {
      assert DigitValue(piece[1]) < 10;
    }
    ParseUintFormatUint(v as nat, 10, 16);
  }

  /** Every id reads back from "0x" and its hexadecimal form. */
  lemma HexIdRoundTrip(v: u16)
    ensures ParseId("0x" + FormatUint(v as nat, 16)) == Some(v)
  {
    var digits := FormatUint(v as nat, 16);
    var piece := "0x" + digits;
    Pow2Of16();
    assert piece[..2] == "0x" && piece[2..] == digits;
    ParseUintFormatUint(v as nat, 16, 16);
  }

  /** The decimal forms of `ids`. */
  function DecimalIds(ids: seq<u16>): (r: seq<string>)
    ensures |r| == |ids|
  {
    if ids == [] then [] else DecimalIds(ids[..|ids| - 1]) + [FormatUint(ids[|ids| - 1] as nat, 10)]
  }

  lemma {:induction false} DecimalIdsRead(ids: seq<u16>)
    ensures ParseIds(DecimalIds(ids)) == ids
    ensures forall k :: 0 <= k < |ids| ==> DecimalIds(ids)[k] != [] && ' ' !in DecimalIds(ids)[k]
  {
    if ids != [] {
      var init := ids[..|ids| - 1];
      var v := ids[|ids| - 1];
      DecimalIdsRead(init);
      DecimalIdRoundTrip(v);
      var pieces := DecimalIds(ids);
      assert pieces[..|pieces| - 1] == DecimalIds(init);
      FormatUintDigits(v as nat, 10);
      var last := FormatUint(v as nat, 10);
      DigitsHaveNoSpace(last, 10);
      assert ids == init + [v];
    }
  }

  /** Ids written in decimal and joined by single spaces are read back exactly, in order. */
  lemma IdsRoundTrip(c: Config, ids: seq<u16>)
    requires ids != []
    ensures ApplyKey(c, "ExifAllowedIds", Join(DecimalIds(ids), ' ')) == Ok(c.(exifAllowedIds := ids))
  {
    var pieces := DecimalIds(ids);
    DecimalIdsRead(ids);
    SplitJoin(pieces, ' ');
    JoinNonEmpty(pieces, ' ');
  }

  lemma JoinNonEmpty(parts: seq<string>, sep: char)
    requires |parts| >= 1 && parts[0] != []
    ensures Join(parts, sep) != ""
  {
    if |parts| > 1 {
      assert Join(parts, sep)[0] == parts[0][0];
    }
  }
}
