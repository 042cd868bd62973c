/**
 * Export: `downloadVCard` prepares every entity for the target version and
 * writes it as `BEGIN:VCARD`, `VERSION:<target>`, one `key:value` line per
 * property, `END:VCARD` and an empty line, all joined with line feeds.
 */
module Serializer {
  import opened Wrappers
  import opened Text
  import opened Props
  import opened Grammar
  import opened Parser
  import opened Versions

  /** `${key}:${value}` */
  function PropLine(p: Prop): string {
    p.key + ":" + p.value
  }

  /** `Object.entries(m).map(([key, value]) => ...)` */
  function PropLines(m: seq<Prop>): seq<string> {
    seq(|m|, i requires 0 <= i < |m| => PropLine(m[i]))
  }

  /** The lines of one card, from `BEGIN:VCARD` to `END:VCARD` */
  function Frame(m: seq<Prop>, version: string): seq<string> {
    ["BEGIN:VCARD", "VERSION:" + version] + PropLines(m) + ["END:VCARD"]
  }

  /** The lines pushed for one entity: its card and an empty line */
  function EntityLines(m: seq<Prop>, version: string): seq<string> {
    Frame(m, version) + [""]
  }

  function AllLines(ms: seq<seq<Prop>>, version: string): seq<string> {
    if ms == [] then [] else EntityLines(ms[0], version) + AllLines(ms[1..], version)
  }

  /** `prepare` for each entity in turn; the first failure ends the export */
  function PrepareAll(es: seq<Entity>, version: string): Result<seq<seq<Prop>>, Failure> {
    if es == [] then Ok([])
    else
      match PrepareAll(es[..|es| - 1], version)
      case Err(e) => Err(e)
      case Ok(ms) =>
        match Prepared(es[|es| - 1].data, version)
        case Err(e) => Err(e)
        case Ok(m) => Ok(ms + [m])
  }

  /** The text of the downloaded file, or why there is none */
  function Exported(es: seq<Entity>, version: string): Result<string, Failure> {
    match PrepareAll(es, version)
    case Err(e) => Err(e)
    case Ok(ms) => Ok(Join(AllLines(ms, version), "\n"))
  }

  lemma {:induction false} AllLinesAppend(ms: seq<seq<Prop>>, m: seq<Prop>, version: string)
    ensures AllLines(ms + [m], version) == AllLines(ms, version) + EntityLines(m, version)
    decreases |ms|
  {
    if ms == [] {
      assert AllLines([m], version) == EntityLines(m, version) + AllLines([], version);
    } else {
      assert (ms + [m])[1..] == ms[1..] + [m];
      AllLinesAppend(ms[1..], m, version);
    }
  }

  /** Once a prefix of the entities fails, the whole export fails the same way. */
  lemma {:induction false} PrepareAllPrefix(es: seq<Entity>, i: nat, version: string)
    requires i <= |es| && PrepareAll(es[..i], version).Err?
    ensures PrepareAll(es, version) == PrepareAll(es[..i], version)
    decreases |es| - i
  {
    if i < |es| {
      assert es[..i + 1][..i] == es[..i];
      PrepareAllPrefix(es, i + 1, version);
    } else {
      assert es[..i] == es;
    }
  }

  /**
   * The export succeeds exactly when every entity can be prepared, and then holds
   * each entity's prepared properties; otherwise it fails as the first entity that fails.
   */
  lemma {:induction false} PrepareAllSemantics(es: seq<Entity>, version: string)
    ensures PrepareAll(es, version).Ok? <==> forall i :: 0 <= i < |es| ==> Prepared(es[i].data, version).Ok?
    ensures PrepareAll(es, version).Ok? ==>
      |PrepareAll(es, version).value| == |es| &&
      forall i :: 0 <= i < |es| ==> PrepareAll(es, version).value[i] == Prepared(es[i].data, version).value
    ensures PrepareAll(es, version).Err? ==>
      exists i :: 0 <= i < |es| && Prepared(es[i].data, version) == Err(PrepareAll(es, version).error) &&
        forall j :: 0 <= j < i ==> Prepared(es[j].data, version).Ok?
    decreases |es|
  {
    if es != [] {
      var front := es[..|es| - 1];
      PrepareAllSemantics(front, version);
      assert forall i :: 0 <= i < |front| ==> front[i] == es[i];
    }
  }

  /** Exporting an empty collection writes an empty file, whatever the version. */
  lemma ExportEmpty(version: string)
    ensures Exported([], version) == Ok("")
  {
  }

  /** A non-empty line without a line feed */
  predicate IsLine(s: string) {
    |s| > 0 && NoNewline(s)
  }

  /** Text that neither starts nor ends with a line feed and holds no two in a row */
  predicate NoBlankLine(a: string) {
    |a| > 0 && a[0] != '\n' && a[|a| - 1] != '\n' &&
    forall j :: 0 <= j < |a| - 1 ==> a[j] != '\n' || a[j + 1] != '\n'
  }

  lemma {:induction false} JoinLinesNoBlank(lines: seq<string>)
    requires |lines| > 0 && forall i :: 0 <= i < |lines| ==> IsLine(lines[i])
    ensures NoBlankLine(Join(lines, "\n"))
    decreases |lines|
  {
    if |lines| > 1 {
      var a, rest := lines[0], lines[1..];
      assert forall i :: 0 <= i < |rest| ==> rest[i] == lines[i + 1];
      JoinLinesNoBlank(rest);
      var b := Join(rest, "\n");
      var s := a + "\n" + b;
      assert Join(lines, "\n") == s;
      forall j | 0 <= j < |s| - 1 ensures s[j] != '\n' || s[j + 1] != '\n' {
        if j < |a| {
          assert s[j] == a[j];
        } else if j == |a| {
          assert s[j + 1] == b[0];
        } else {
          assert s[j] == b[j - |a| - 1];
          assert s[j + 1] == b[j - |a|];
        }
      }
      assert s[0] == a[0];
      assert s[|s| - 1] == b[|b| - 1];
    }
  }

  lemma DoubleNewlineAt(s: string, j: int)
    ensures OccursAt(s, "\n\n", j) <==> 0 <= j && j + 2 <= |s| && s[j] == '\n' && s[j + 1] == '\n'
  {
    if 0 <= j && j + 2 <= |s| {
      assert s[j..j + 2][0] == s[j] && s[j..j + 2][1] == s[j + 1];
      if s[j] == '\n' && s[j + 1] == '\n' {
        assert s[j..j + 2] == "\n\n";
      }
    }
  }

  /** A block free of blank lines, followed by a blank line, is the first block. */
  lemma SplitAfterBlock(a: string, t: string)
    requires NoBlankLine(a)
    ensures Split(a + "\n\n" + t, "\n\n") == [a] + Split(t, "\n\n")
  {
    var s := a + "\n\n" + t;
    forall j | 0 <= j < |a| ensures !OccursAt(s, "\n\n", j) {
      DoubleNewlineAt(s, j);
      if j + 1 < |a| {
        assert a[j] == s[j] && a[j + 1] == s[j + 1];
      } else {
        assert s[j] == a[|a| - 1];
      }
    }
    SplitAt(a, "\n\n", t);
  }

  /** A block free of blank lines, followed by a single line feed, is one block. */
  lemma SplitLastBlock(a: string)
    requires NoBlankLine(a)
    ensures Split(a + "\n", "\n\n") == [a + "\n"]
  {
    var s := a + "\n";
    forall j | 0 <= j <= |s| ensures !OccursAt(s, "\n\n", j) {
      DoubleNewlineAt(s, j);
      if j + 1 < |a| {
        assert a[j] == s[j] && a[j + 1] == s[j + 1];
      } else if j + 1 == |a| {
        assert s[j] == a[|a| - 1];
      }
    }
    SplitWhole(s, "\n\n");
  }

  /** A block free of blank lines is a text of one block. */
  lemma SplitOneBlock(a: string)
    requires NoBlankLine(a)
    ensures Split(a, "\n\n") == [a]
  {
    forall j | 0 <= j <= |a| ensures !OccursAt(a, "\n\n", j) {
      DoubleNewlineAt(a, j);
    }
    SplitWhole(a, "\n\n");
  }

  /** The line of a stored property parses back into that property. */
  lemma StoredLine(p: Prop)
    requires StoredKey(p.key)
    ensures Classify(PropLine(p)) == Store(p.key, p.value)
  {
    ClassifyField(p.key, p.value);
  }

  lemma WellFormedPrefix(m: seq<Prop>, n: nat)
    requires WellFormed(m) && n <= |m|
    ensures WellFormed(m[..n])
  {
    DistinctPrefix(m, n);
    forall p | p in m[..n] ensures p in m {
      var i :| 0 <= i < n && m[..n][i] == p;
      assert m[i] == p;
    }
  }

  /** The property lines of well-formed properties rebuild them in order. */
  lemma {:induction false} RunProps(st: ParseState, m: seq<Prop>)
    requires st.data == [] && WellFormed(m)
    ensures Run(st, PropLines(m)) == st.(data := m)
    decreases |m|
  {
    if m != [] {
      var front, p := m[..|m| - 1], m[|m| - 1];
      LastProp(m);
      RunProps(st, front);
      var lines := PropLines(m);
      assert lines[..|m| - 1] == PropLines(front);
      assert lines[|m| - 1] == PropLine(p);
      StepStore(st.(data := front), PropLine(p), p.key, p.value);
    }
  }

  /** The last property of well-formed properties parses back and is appended by `Put`. */
  lemma LastProp(m: seq<Prop>)
    requires WellFormed(m) && |m| > 0
    ensures WellFormed(m[..|m| - 1])
    ensures Classify(PropLine(m[|m| - 1])) == Store(m[|m| - 1].key, m[|m| - 1].value)
    ensures Put(m[..|m| - 1], m[|m| - 1].key, m[|m| - 1].value) == m
  {
    var front, p := m[..|m| - 1], m[|m| - 1];
    WellFormedPrefix(m, |m| - 1);
    assert p in m;
    StoredLine(p);
    LastKeyFresh(m);
    PutAbsent(front, p.key, p.value);
    assert front + [p] == m;
  }

  /** With unique keys, the last key does not occur before it. */
  lemma LastKeyFresh(m: seq<Prop>)
    requires Distinct(m) && |m| > 0
    ensures m[|m| - 1].key !in Keys(m[..|m| - 1])
  {
    var front := m[..|m| - 1];
    forall i | 0 <= i < |front| ensures Keys(front)[i] != m[|m| - 1].key {
      assert front[i] == m[i];
    }
  }

  /** A card parses back into its version and its properties, with nothing reported. */
  lemma ParseFrame(m: seq<Prop>, version: string)
    requires WellFormed(m)
    ensures Run(Start, Frame(m, version)) == ParseState(Some(version), m, [])
    ensures Run(Start, Frame(m, version) + [""]) == ParseState(Some(version), m, [])
  {
    var head := ["BEGIN:VCARD", "VERSION:" + version];
    var vline := "VERSION:" + version;
    FieldLine("VERSION", version);
    assert vline == "VERSION" + ":" + version;
    assert vline[..5][0] == 'V' && vline[..3][0] == 'V';
    assert vline[..7] == "VERSION";
    assert "BEGIN:VCARD"[..5] == "BEGIN" && "END:VCARD"[..3] == "END";
    assert !StartsWith(vline, "BEGIN");
    assert !StartsWith(vline, "END");
    assert StartsWith(vline, "VERSION");
    assert ValueOf(vline) == version;
    assert Classify(vline) == SetVersion(version);
    assert Run(Start, head) == Step(Run(Start, ["BEGIN:VCARD"]), vline) by {
      assert head[..1] == ["BEGIN:VCARD"];
    }
    assert Run(Start, ["BEGIN:VCARD"]) == Step(Start, "BEGIN:VCARD") by {
      assert ["BEGIN:VCARD"][..0] == [];
    }
    assert Run(Start, head) == ParseState(Some(version), [], []);
    RunAppend(Start, head, PropLines(m));
    RunProps(ParseState(Some(version), [], []), m);
    RunAppend(Start, head + PropLines(m), ["END:VCARD"]);
    assert ["END:VCARD"][..0] == [];
    RunAppend(Start, Frame(m, version), [""]);
    assert [""][..0] == [];
  }

  /** Every line of a card is a non-empty line without a line feed. */
  lemma FrameLines(m: seq<Prop>, version: string)
    requires WellFormed(m) && NoNewline(version)
    ensures forall i :: 0 <= i < |Frame(m, version)| ==> IsLine(Frame(m, version)[i])
  {
    var f, body := Frame(m, version), PropLines(m);
    PropLinesAreLines(m);
    VersionIsLine(version);
    assert IsLine("BEGIN:VCARD") && IsLine("END:VCARD");
    forall i | 0 <= i < |f| ensures IsLine(f[i]) {
      if 2 <= i < |f| - 1 {
        assert f[i] == body[i - 2];
      }
    }
  }

  lemma PropLinesAreLines(m: seq<Prop>)
    requires WellFormed(m)
    ensures forall i :: 0 <= i < |PropLines(m)| ==> IsLine(PropLines(m)[i])
  {
    forall i | 0 <= i < |m| ensures IsLine(PropLine(m[i])) {
      var p := m[i];
      assert p in m;
      ValidKeyNoNewline(p.key);
      var line := p.key + ":" + p.value;
      forall j | 0 <= j < |line| ensures line[j] != '\n' {
        if j > |p.key| {
          assert line[j] == p.value[j - |p.key| - 1];
        } else if j < |p.key| {
          assert line[j] == p.key[j];
        }
      }
    }
  }

  lemma VersionIsLine(version: string)
    requires NoNewline(version)
    ensures IsLine("VERSION:" + version)
  {
    var line := "VERSION:" + version;
    forall j | 0 <= j < |line| ensures line[j] != '\n' {
      if j >= 8 {
        assert line[j] == version[j - 8];
      }
    }
  }

  /** The blocks an export splits into: each card, the last one followed by a line feed */
  function Blocks(ms: seq<seq<Prop>>, version: string): seq<string>
    requires |ms| > 0
  {
    if |ms| == 1 then [Join(Frame(ms[0], version), "\n") + "\n"]
    else [Join(Frame(ms[0], version), "\n")] + Blocks(ms[1..], version)
  }

  lemma {:induction false} BlocksAt(ms: seq<seq<Prop>>, version: string)
    requires |ms| > 0
    ensures |Blocks(ms, version)| == |ms|
    ensures forall i :: 0 <= i < |ms| ==>
      Blocks(ms, version)[i] == Join(Frame(ms[i], version), "\n") + (if i == |ms| - 1 then "\n" else "")
    decreases |ms|
  {
    if |ms| > 1 {
      BlocksAt(ms[1..], version);
      var b := Blocks(ms, version);
      forall i | 0 < i < |ms|
        ensures b[i] == Join(Frame(ms[i], version), "\n") + (if i == |ms| - 1 then "\n" else "")
      {
        assert b[i] == Blocks(ms[1..], version)[i - 1];
        assert ms[1..][i - 1] == ms[i];
      }
    }
  }

  /** The exported text is the first card, then a blank line and the rest, or then a final line feed. */
  lemma ExportText(ms: seq<seq<Prop>>, version: string)
    requires |ms| > 0
    ensures var first := Join(Frame(ms[0], version), "\n");
      Join(AllLines(ms, version), "\n") ==
        if |ms| == 1 then first + "\n" else first + "\n\n" + Join(AllLines(ms[1..], version), "\n")
  {
    var f := Frame(ms[0], version);
    var rest := AllLines(ms[1..], version);
    assert AllLines(ms, version) == f + [""] + rest;
    if |ms| == 1 {
      assert rest == [];
      assert f + [""] + rest == f + [""];
      JoinBlank(f, []);
    } else {
      assert rest == EntityLines(ms[1], version) + AllLines(ms[2..], version);
      JoinBlank(f, rest);
    }
  }

  /** An empty line between two runs of lines makes a blank line in the text. */
  lemma JoinBlank(f: seq<string>, rest: seq<string>)
    requires |f| > 0
    ensures Join(f + [""] + rest, "\n") ==
      if rest == [] then Join(f, "\n") + "\n" else Join(f, "\n") + "\n\n" + Join(rest, "\n")
  {
    assert f + [""] + rest == f + ([""] + rest);
    JoinAppend(f, [""] + rest, "\n");
    if rest == [] {
      assert [""] + rest == [""];
    } else {
      assert ([""] + rest)[1..] == rest;
    }
  }

  /** Splitting the exported text on blank lines gives one block per card. */
  lemma {:induction false} ExportBlocks(ms: seq<seq<Prop>>, version: string)
    requires |ms| > 0 && NoNewline(version)
    requires forall i :: 0 <= i < |ms| ==> WellFormed(ms[i])
    ensures Split(Join(AllLines(ms, version), "\n"), "\n\n") == Blocks(ms, version)
    decreases |ms|
  {
    var a := Join(Frame(ms[0], version), "\n");
    FrameLines(ms[0], version);
    JoinLinesNoBlank(Frame(ms[0], version));
    ExportText(ms, version);
    if |ms| == 1 {
      SplitLastBlock(a);
    } else {
      SplitAfterBlock(a, Join(AllLines(ms[1..], version), "\n"));
      assert forall i :: 0 <= i < |ms[1..]| ==> ms[1..][i] == ms[i + 1];
      ExportBlocks(ms[1..], version);
    }
  }

  /** Both kinds of block parse into the card's version and properties. */
  lemma ParseBlock(m: seq<Prop>, version: string, last: bool, index: nat)
    requires WellFormed(m) && NoNewline(version)
    ensures var block := Join(Frame(m, version), "\n") + (if last then "\n" else "");
      ParsedEntity(block, index) == Entity(Some(version), index, m) && RejectedKeys(block) == []
  {
    var f := Frame(m, version);
    ParseFrame(m, version);
    if last {
      JoinBlank(f, []);
      assert f + [""] + [] == f + [""];
      FrameSplit(f + [""], m, version);
    } else {
      assert Join(f, "\n") + "" == Join(f, "\n");
      FrameSplit(f, m, version);
    }
  }

  /** The lines of a card, joined with line feeds, split back into themselves. */
  lemma FrameSplit(lines: seq<string>, m: seq<Prop>, version: string)
    requires WellFormed(m) && NoNewline(version)
    requires lines == Frame(m, version) || lines == Frame(m, version) + [""]
    ensures Split(Join(lines, "\n"), "\n") == lines
  {
    FrameLines(m, version);
    assert forall i :: 0 <= i < |lines| ==> '\n' !in lines[i] by {
      forall i | 0 <= i < |lines| ensures '\n' !in lines[i] {
        if i < |Frame(m, version)| {
          assert lines[i] == Frame(m, version)[i];
        }
      }
    }
    assert "\n" == ['\n'];
    SplitJoinLines(lines, '\n');
  }

  lemma {:induction false} RejectedInNone(blocks: seq<string>)
    requires forall i :: 0 <= i < |blocks| ==> RejectedKeys(blocks[i]) == []
    ensures RejectedIn(blocks) == []
    decreases |blocks|
  {
    if blocks != [] {
      RejectedInNone(blocks[..|blocks| - 1]);
    }
  }

  /** `prepare` keeps parsed properties well-formed. */
  lemma PreparedWellFormed(m: seq<Prop>, version: string)
    requires WellFormed(m) && Prepared(m, version).Ok?
    ensures WellFormed(Prepared(m, version).value)
  {
    PreparedIsFilter(m, version);
    RepairedWellFormed(m, version);
    WithoutWellFormed(Repaired(m, version).value, DenyList(version).value);
  }

  lemma RepairedWellFormed(m: seq<Prop>, version: string)
    requires WellFormed(m) && Repaired(m, version).Ok?
    ensures WellFormed(Repaired(m, version).value)
  {
    if version == "2.1" && !Truthy(Get(m, "N")) {
      var fn := Get(m, "FN").value;
      GetPresent(m, "FN");
      NameKeyStored();
      PutMembers(m, "N", fn);
      PutDistinct(m, "N", fn);
    }
  }

  lemma NameKeyStored()
    ensures StoredKey("N")
  {
    assert "N" in PropertyNames;
    KeyParts("N", "");
  }

  lemma WithoutWellFormed(m: seq<Prop>, ks: seq<string>)
    requires WellFormed(m)
    ensures WellFormed(Without(m, ks))
  {
    WithoutSemantics(m, ks);
    WithoutDistinct(m, ks);
  }

  /**
   * Loading an exported text gives back one entity per exported entity, in order,
   * numbered from 0, carrying the target version and exactly its prepared properties.
   */
  lemma RoundTrip(es: seq<Entity>, version: string, text: string)
    requires |es| > 0
    requires forall i :: 0 <= i < |es| ==> WellFormed(es[i].data)
    requires Exported(es, version) == Ok(text)
    ensures |Loaded(text)| == |es|
    ensures forall i :: 0 <= i < |es| ==>
      Prepared(es[i].data, version).Ok? &&
      Loaded(text)[i] == Entity(Some(version), i, Prepared(es[i].data, version).value)
    ensures Rejected(text) == []
  {
    PrepareAllSemantics(es, version);
    PreparedIsFilter(es[0].data, version);
    KnownVersionIsLine(version);
    var ms := PrepareAll(es, version).value;
    forall i | 0 <= i < |ms| ensures WellFormed(ms[i]) {
      PreparedWellFormed(es[i].data, version);
    }
    ExportBlocks(ms, version);
    BlocksAt(ms, version);
    var blocks := Split(text, "\n\n");
    assert blocks == Blocks(ms, version);
    forall i | 0 <= i < |es|
      ensures ParsedEntity(blocks[i], i) == Entity(Some(version), i, ms[i])
      ensures RejectedKeys(blocks[i]) == []
    {
      ParseBlock(ms[i], version, i == |ms| - 1, i);
    }
    RejectedInNone(blocks);
  }

  /** The versions an export can target fit on the `VERSION` line. */
  lemma KnownVersionIsLine(version: string)
    requires DenyList(version).Some?
    ensures NoNewline(version)
  {
  }

  /**
   * When preparing removes and repairs nothing, the collection survives an export
   * and a reload unchanged, apart from taking the target version.
   */
  lemma RoundTripUnchanged(es: seq<Entity>, version: string)
    requires |es| > 0 && DenyList(version).Some?
    requires forall i :: 0 <= i < |es| ==> WellFormed(es[i].data)
    requires forall i :: 0 <= i < |es| ==> version == "2.1" ==> Truthy(Get(es[i].data, "N"))
    requires forall i, p :: 0 <= i < |es| && p in es[i].data ==> p.key !in DenyList(version).value
    ensures Exported(es, version).Ok?
    ensures |Loaded(Exported(es, version).value)| == |es|
    ensures forall i :: 0 <= i < |es| ==>
      Loaded(Exported(es, version).value)[i] == Entity(Some(version), i, es[i].data)
  {
    forall i | 0 <= i < |es| ensures Prepared(es[i].data, version) == Ok(es[i].data) {
      PreparedUnchanged(es[i].data, version);
    }
    PrepareAllSemantics(es, version);
    RoundTrip(es, version, Exported(es, version).value);
  }
}
