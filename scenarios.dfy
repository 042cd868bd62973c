/** Concrete cases of the pipeline, worked through the model. */
module Scenarios {
  import opened Wrappers
  import opened Text
  import opened Props
  import opened Grammar
  import opened Validation
  import opened Parser
  import opened Versions
  import opened Serializer

  /** A 2.1 export of a card with only a full name appends N, copied from FN. */
  lemma RepairFromFullName()
    ensures Prepared([Prop("FN", "Jane")], "2.1") == Ok([Prop("FN", "Jane"), Prop("N", "Jane")])
  {
    var m := [Prop("FN", "Jane")];
    assert m[1..] == [];
    assert Get(m, "N") == None;
    assert Get(m, "FN") == Some("Jane");
    PreparedFailure(m, "2.1");
    PreparedOrder(m, "2.1");
    NamesNotDenied("2.1");
    assert forall p :: p in m ==> p == m[0];
    WithoutAbsent(m, DenyList("2.1").value);
    assert Prepared(m, "2.1").Ok?;
    assert Prepared(m, "2.1").value == m + [Prop("N", "Jane")];
    assert m + [Prop("N", "Jane")] == [Prop("FN", "Jane"), Prop("N", "Jane")];
  }

  /** A 2.1 export of a card whose N and FN are missing or empty fails. */
  lemma NoNameFails()
    ensures Prepared([Prop("TEL", "1")], "2.1") == Err(MissingName)
    ensures Prepared([Prop("N", ""), Prop("FN", "")], "2.1") == Err(MissingName)
  {
    var m1 := [Prop("TEL", "1")];
    assert m1[1..] == [];
    assert Get(m1, "N") == None && Get(m1, "FN") == None;
    PreparedFailure(m1, "2.1");
    var m2 := [Prop("N", ""), Prop("FN", "")];
    assert m2[1..][0] == Prop("FN", "");
    assert Get(m2, "N") == Some("") && Get(m2, "FN") == Some("");
    PreparedFailure(m2, "2.1");
  }

  /** An unknown target version fails, but an empty collection still exports as "". */
  lemma UnknownTarget()
    ensures Prepared([Prop("FN", "Jane")], "5.0") == Err(UnknownVersion)
    ensures Exported([], "5.0") == Ok("")
  {
    PreparedFailure([Prop("FN", "Jane")], "5.0");
    ExportEmpty("5.0");
  }

  /** Only the exact key is pruned: GENDER goes for 2.1, a GENDER with parameters stays. */
  lemma ParameterisedKeyKept()
    ensures Prepared([Prop("N", "A;B;;;"), Prop("GENDER", "M"), Prop("GENDER;X=1", "F")], "2.1")
      == Ok([Prop("N", "A;B;;;"), Prop("GENDER;X=1", "F")])
  {
    var m := [Prop("N", "A;B;;;"), Prop("GENDER", "M"), Prop("GENDER;X=1", "F")];
    assert Get(m, "N") == Some("A;B;;;");
    PreparedFailure(m, "2.1");
    PreparedOrder(m, "2.1");
    GenderPruned(m);
  }

  lemma GenderPruned(m: seq<Prop>)
    requires m == [Prop("N", "A;B;;;"), Prop("GENDER", "M"), Prop("GENDER;X=1", "F")]
    ensures Without(m, DenyList("2.1").value) == [Prop("N", "A;B;;;"), Prop("GENDER;X=1", "F")]
  {
    var deny := DenyList("2.1").value;
    NamesNotDenied("2.1");
    assert "GENDER" in deny;
    assert "GENDER;X=1" !in deny;
    assert m[1..] == [Prop("GENDER", "M"), Prop("GENDER;X=1", "F")];
    assert m[2..] == [Prop("GENDER;X=1", "F")];
    assert Without(m[2..], deny) == [Prop("GENDER;X=1", "F")];
  }

  lemma EmailExamples()
    ensures !ValidateInput("EMAIL", "bad@@x")
    ensures ValidateInput("EMAIL", "a@b.co")
  {
    var bad := "bad@@x";
    forall at, dot | 0 <= at < |bad| && 0 <= dot < |bad| ensures !EmailParts(bad, at, dot) {
      assert bad[1] == 'a' && bad[2] == 'd';
    }
    assert EmailParts("a@b.co", 1, 3);
  }

  /** A TEL with parameters has no pattern of its own and accepts anything; a plain TEL does not. */
  lemma DefaultAcceptExamples()
    ensures ValidateInput("TEL;TYPE=WORK,VOICE", "not a phone number")
    ensures ValidateInput("PHOTO", "")
    ensures !ValidateInput("TEL", "not a phone number")
  {
    var v := "not a phone number";
    assert "TEL;TYPE=WORK,VOICE" !in ValuePatterns;
    assert "PHOTO" !in ValuePatterns;
    assert v[0] == 'n' && !IsPhoneChar('n');
    if IsTel(v) {
      TelChars(v);
    }
  }

  /** The keys of the sample cards are valid, parameters included. */
  lemma SampleKeysValid()
    ensures ValidKey("TEL;TYPE=WORK,VOICE") && ValidKey("TEL;TYPE=HOME,VOICE")
    ensures ValidKey("N") && ValidKey("FN") && ValidKey("EMAIL")
  {
    ParameterisedKey("TEL;TYPE=WORK,VOICE");
    ParameterisedKey("TEL;TYPE=HOME,VOICE");
    PlainKey("N");
    PlainKey("FN");
    PlainKey("EMAIL");
  }

  lemma PlainKey(name: string)
    requires name == "N" || name == "FN" || name == "EMAIL"
    ensures ValidKey(name)
  {
    assert name in PropertyNames;
    KeyParts(name, "");
  }

  lemma ParameterisedKey(key: string)
    requires key == "TEL;TYPE=WORK,VOICE" || key == "TEL;TYPE=HOME,VOICE"
    ensures ValidKey(key)
  {
    var types := key[9..];
    assert key == "TEL;TYPE=" + types;
    TypedTelKey(types);
  }

  /** A telephone key with a `TYPE=` parameter is valid whenever the types lie on one line. */
  lemma TypedTelKey(types: string)
    requires forall i :: 0 <= i < |types| ==> !IsLineTerminator(types[i])
    ensures ValidKey("TEL;TYPE=" + types)
  {
    var params := "TYPE=" + types;
    assert params[4] == '=';
    forall i | 0 <= i < |params| ensures !IsLineTerminator(params[i]) {
      if i >= 5 {
        assert params[i] == types[i - 5];
      }
    }
    assert "TEL;TYPE=" + types == "TEL" + ";" + params;
    assert "TEL" in PropertyNames;
    KeyParts("TEL", params);
  }

  /** A key that is not a listed property name is invalid. */
  lemma UnknownKeyInvalid()
    ensures !ValidKey("X-CUSTOM")
  {
    assert ';' !in "X-CUSTOM";
    assert "X-CUSTOM" !in PropertyNames;
    KeyParts("X-CUSTOM", "");
  }

  /** Parameters without `=` make the key invalid. */
  lemma ParametersNeedEquals()
    ensures !ValidKey("TEL;TYPE")
  {
    KeyParts("TEL", "TYPE");
    assert "TEL;TYPE" == "TEL" + ";" + "TYPE";
  }

  /** A line whose key is not a property name is reported, not stored. */
  lemma UnknownKeyLine(line: string)
    requires line == "X-CUSTOM:1"
    ensures Classify(line) == Reject("X-CUSTOM")
  {
    var key := line[..8];
    assert line == key + ":" + "1";
    assert key == "X-CUSTOM";
    PlainStart(key);
    ClassifyField(key, "1");
    UnknownKeyInvalid();
  }

  /** A VERSION line only sets the version. */
  lemma VersionLine(line: string)
    requires line == "VERSION:3.0"
    ensures Classify(line) == SetVersion("3.0")
  {
    assert line == "VERSION" + ":" + "3.0";
    FieldLine("VERSION", "3.0");
    assert line[..7] == "VERSION";
    assert line[..5][0] == 'V' && line[..3][0] == 'V';
  }

  /** A line with more colons keeps them in its value. */
  lemma ColonsInValue(line: string)
    requires line == "URL:http://x.org"
    ensures Classify(line) == Store("URL", "http://x.org")
  {
    var key, value := line[..3], line[4..];
    assert line == key + ":" + value;
    assert key == "URL" && value == "http://x.org";
    PlainStart(key);
    ClassifyField(key, value);
    assert ';' !in key && key in PropertyNames;
    KeyParts(key, "");
  }

  /** `FN:A`, then a blank line: two entities, the second one empty. */
  lemma TrailingBlankLine(text: string)
    requires text == "FN:A\n\n"
    ensures Loaded(text) == [Entity(None, 0, [Prop("FN", "A")]), Entity(None, 1, [])]
  {
    var line := text[..4];
    assert text == line + "\n\n" + "";
    assert NoBlankLine(line);
    SplitAfterBlock(line, "");
    SplitWhole("", "\n\n");
    assert Split(text, "\n\n") == [line, ""];
    SingleField(line);
    EmptyBlock(1);
  }

  /** A text without two line feeds in a row, such as one with CRLF line ends, loads as a single entity. */
  lemma SingleBlock(text: string)
    requires forall j :: 0 <= j < |text| - 1 ==> text[j] != '\n' || text[j + 1] != '\n'
    ensures Loaded(text) == [ParsedEntity(text, 0)]
  {
    forall j | 0 <= j <= |text| ensures !OccursAt(text, "\n\n", j) {
      DoubleNewlineAt(text, j);
    }
    SplitWhole(text, "\n\n");
    LoadedShape(text);
  }

  /** Two cards with CRLF line ends and a CRLF blank line between them load as one entity. */
  lemma CrlfCards(text: string)
    requires text == "FN:A\r\n\r\nFN:B"
    ensures |Loaded(text)| == 1
  {
    forall j | 0 <= j < |text| - 1 ensures text[j] != '\n' || text[j + 1] != '\n' {
      if text[j] == '\n' {
        assert j == 5 || j == 7;
      }
    }
    SingleBlock(text);
  }

  lemma SingleField(block: string)
    requires block == "FN:A"
    ensures ParsedEntity(block, 0) == Entity(None, 0, [Prop("FN", "A")])
  {
    ContainsChar(block, '\n');
    SplitWhole(block, "\n");
    var key := block[..2];
    assert block == key + ":" + "A";
    PlainStart(key);
    ClassifyField(key, "A");
    PlainKey(key);
    assert Classify(block) == Store("FN", "A");
    assert Split(block, "\n") == [block];
    assert [block][..0] == [];
    assert Run(Start, [block]) == Step(Start, block);
    assert Step(Start, block).data == [Prop("FN", "A")];
  }

  /** A card of the start-up text: a full name, a structured name, two telephones and a mail address */
  function SampleCard(fullName: string, name: string): seq<Prop> {
    [Prop("FN", fullName), Prop("N", name),
     Prop("TEL;TYPE=WORK,VOICE", "+1234567890"), Prop("TEL;TYPE=HOME,VOICE", "+0987654321"),
     Prop("EMAIL", "john.doe@example.com")]
  }

  /** The lines of the text the page loads at start-up, in order */
  const DebugLines: seq<string> := [
    "BEGIN:VCARD", "VERSION:3.0", "FN:John Doe", "N:Doe;John;;;",
    "TEL;TYPE=WORK,VOICE:+1234567890", "TEL;TYPE=HOME,VOICE:+0987654321",
    "EMAIL:john.doe@example.com", "END:VCARD", "",
    "BEGIN:VCARD", "VERSION:3.0", "FN:John Zwo", "N:Zwo;John;;;",
    "TEL;TYPE=WORK,VOICE:+1234567890", "TEL;TYPE=HOME,VOICE:+0987654321",
    "EMAIL:john.doe@example.com", "END:VCARD"]

  lemma TelKeyStored(k: string)
    requires k == "TEL;TYPE=WORK,VOICE" || k == "TEL;TYPE=HOME,VOICE"
    ensures StoredKey(k)
  {
    ParameterisedKey(k);
    NotStructural(k);
  }

  lemma PlainKeyStored(k: string)
    requires k == "N" || k == "FN" || k == "EMAIL"
    ensures StoredKey(k)
  {
    PlainKey(k);
    NotStructural(k);
  }

  lemma NotStructural(k: string)
    requires k == "N" || k == "FN" || k == "EMAIL" || k == "TEL;TYPE=WORK,VOICE" || k == "TEL;TYPE=HOME,VOICE"
    ensures ':' !in k && !StartsWith(k, "BEGIN") && !StartsWith(k, "END") && !StartsWith(k, "VERSION")
  {
    if k == "EMAIL" {
      assert k[..3][1] == 'M';
    } else {
      PlainStart(k);
    }
  }

  /** A key without `:` whose first letter is none of B, E and V is not structural. */
  lemma PlainStart(k: string)
    requires ':' !in k && |k| > 0 && k[0] != 'B' && k[0] != 'E' && k[0] != 'V'
    ensures !StartsWith(k, "BEGIN") && !StartsWith(k, "END") && !StartsWith(k, "VERSION")
  {
    if |k| >= 3 {
      assert k[..3][0] == k[0];
    }
    if |k| >= 5 {
      assert k[..5][0] == k[0];
    }
    if |k| >= 7 {
      assert k[..7][0] == k[0];
    }
  }

  /** Each sample card holds only what the parser can produce. */
  lemma SampleCardWellFormed(fullName: string, name: string)
    requires NoNewline(fullName) && NoNewline(name)
    ensures WellFormed(SampleCard(fullName, name))
  {
    SampleCardDistinct(fullName, name);
    SampleCardKeys(fullName, name);
    SampleCardValues(fullName, name);
  }

  lemma SampleCardDistinct(fullName: string, name: string)
    ensures Distinct(SampleCard(fullName, name))
  {
    var m := SampleCard(fullName, name);
    assert m[2].key[9] != m[3].key[9];
  }

  lemma SampleCardKeys(fullName: string, name: string)
    ensures forall p :: p in SampleCard(fullName, name) ==> StoredKey(p.key)
  {
    var m := SampleCard(fullName, name);
    forall i | 0 <= i < |m| ensures StoredKey(m[i].key) {
      if i == 2 || i == 3 {
        TelKeyStored(m[i].key);
      } else {
        PlainKeyStored(m[i].key);
      }
    }
    forall p | p in m ensures StoredKey(p.key) {
      var i :| 0 <= i < 5 && m[i] == p;
    }
  }

  lemma SampleCardValues(fullName: string, name: string)
    requires NoNewline(fullName) && NoNewline(name)
    ensures forall p :: p in SampleCard(fullName, name) ==> NoNewline(p.value)
  {
    var m := SampleCard(fullName, name);
    forall i | 0 <= i < |m| ensures NoNewline(m[i].value) {
      if i >= 2 {
        FixedValue(m[i].value);
      }
    }
    forall p | p in m ensures NoNewline(p.value) {
      var i :| 0 <= i < 5 && m[i] == p;
    }
  }

  lemma FixedValue(v: string)
    requires v == "+1234567890" || v == "+0987654321" || v == "john.doe@example.com"
    ensures NoNewline(v)
  {
  }

  /** The start-up text is two cards of version 3.0 separated by a blank line. */
  lemma DebugLinesFrames(lines: seq<string>, m1: seq<Prop>, m2: seq<Prop>)
    requires lines == DebugLines
    requires m1 == SampleCard("John Doe", "Doe;John;;;") && m2 == SampleCard("John Zwo", "Zwo;John;;;")
    ensures lines == Frame(m1, "3.0") + [""] + Frame(m2, "3.0")
  {
    SampleFrame("John Doe", "Doe;John;;;", m1);
    SampleFrame("John Zwo", "Zwo;John;;;", m2);
    assert "FN:" + "John Doe" == "FN:John Doe" && "N:" + "Doe;John;;;" == "N:Doe;John;;;";
    assert "FN:" + "John Zwo" == "FN:John Zwo" && "N:" + "Zwo;John;;;" == "N:Zwo;John;;;";
  }

  /** The lines of a sample card */
  lemma SampleFrame(fullName: string, name: string, m: seq<Prop>)
    requires m == SampleCard(fullName, name)
    ensures Frame(m, "3.0") == [
      "BEGIN:VCARD", "VERSION:3.0", "FN:" + fullName, "N:" + name,
      "TEL;TYPE=WORK,VOICE:+1234567890", "TEL;TYPE=HOME,VOICE:+0987654321",
      "EMAIL:john.doe@example.com", "END:VCARD"]
  {
    assert PropLines(m) == [PropLine(m[0]), PropLine(m[1]), PropLine(m[2]), PropLine(m[3]), PropLine(m[4])];
    NameLines(fullName, name);
    WorkLine(m[2]);
    HomeLine(m[3]);
    MailLine(m[4]);
    assert "VERSION:" + "3.0" == "VERSION:3.0";
  }

  lemma NameLines(fullName: string, name: string)
    ensures PropLine(Prop("FN", fullName)) == "FN:" + fullName
    ensures PropLine(Prop("N", name)) == "N:" + name
  {
  }

  lemma WorkLine(p: Prop)
    requires p == Prop("TEL;TYPE=WORK,VOICE", "+1234567890")
    ensures PropLine(p) == "TEL;TYPE=WORK,VOICE:+1234567890"
  {
  }

  lemma HomeLine(p: Prop)
    requires p == Prop("TEL;TYPE=HOME,VOICE", "+0987654321")
    ensures PropLine(p) == "TEL;TYPE=HOME,VOICE:+0987654321"
  {
  }

  lemma MailLine(p: Prop)
    requires p == Prop("EMAIL", "john.doe@example.com")
    ensures PropLine(p) == "EMAIL:john.doe@example.com"
  {
  }

  /**
   * Two cards separated by a blank line, with no line feed after the last one,
   * load as those two cards, numbered 0 and 1, and no key is reported. With
   * `DebugLinesFrames` and `SampleCardWellFormed` this covers the start-up text.
   */
  lemma TwoCards(m1: seq<Prop>, m2: seq<Prop>, version: string)
    requires WellFormed(m1) && WellFormed(m2) && NoNewline(version)
    ensures var text := Join(Frame(m1, version) + [""] + Frame(m2, version), "\n");
      Loaded(text) == [Entity(Some(version), 0, m1), Entity(Some(version), 1, m2)] &&
      Rejected(text) == []
  {
    var f1, f2 := Frame(m1, version), Frame(m2, version);
    var b1, b2 := Join(f1, "\n"), Join(f2, "\n");
    TwoBlocks(m1, m2, version);
    var blocks := Split(Join(f1 + [""] + f2, "\n"), "\n\n");
    assert b1 + "" == b1 && b2 + "" == b2;
    ParseBlock(m1, version, false, 0);
    ParseBlock(m2, version, false, 1);
    RejectedInNone(blocks);
  }

  /** The start-up text of the page loads as its two cards, numbered 0 and 1, and alerts nothing. */
  lemma StartupText(text: string, m1: seq<Prop>, m2: seq<Prop>)
    requires text == Join(DebugLines, "\n")
    requires m1 == SampleCard("John Doe", "Doe;John;;;") && m2 == SampleCard("John Zwo", "Zwo;John;;;")
    ensures Loaded(text) == [Entity(Some("3.0"), 0, m1), Entity(Some("3.0"), 1, m2)]
    ensures Rejected(text) == []
  {
    StartupCards(m1, m2);
    DebugLinesFrames(DebugLines, m1, m2);
    TwoCards(m1, m2, "3.0");
  }

  /** The cards of the start-up text hold only what the parser produces, and their version fits on a line. */
  lemma StartupCards(m1: seq<Prop>, m2: seq<Prop>)
    requires m1 == SampleCard("John Doe", "Doe;John;;;") && m2 == SampleCard("John Zwo", "Zwo;John;;;")
    ensures WellFormed(m1) && WellFormed(m2) && NoNewline("3.0")
  {
    StartupField("John Doe");
    StartupField("Doe;John;;;");
    StartupField("John Zwo");
    StartupField("Zwo;John;;;");
    StartupField("3.0");
    SampleCardWellFormed("John Doe", "Doe;John;;;");
    SampleCardWellFormed("John Zwo", "Zwo;John;;;");
  }

  lemma StartupField(s: string)
    requires s == "John Doe" || s == "Doe;John;;;" || s == "John Zwo" || s == "Zwo;John;;;" || s == "3.0"
    ensures NoNewline(s)
  {
  }

  /** Two frames joined by a blank line split into their two blocks. */
  lemma TwoBlocks(m1: seq<Prop>, m2: seq<Prop>, version: string)
    requires WellFormed(m1) && WellFormed(m2) && NoNewline(version)
    ensures Split(Join(Frame(m1, version) + [""] + Frame(m2, version), "\n"), "\n\n") ==
      [Join(Frame(m1, version), "\n"), Join(Frame(m2, version), "\n")]
  {
    var f1, f2 := Frame(m1, version), Frame(m2, version);
    JoinBlank(f1, f2);
    var b1, b2 := Join(f1, "\n"), Join(f2, "\n");
    FrameLines(m1, version);
    FrameLines(m2, version);
    JoinLinesNoBlank(f1);
    JoinLinesNoBlank(f2);
    SplitAfterBlock(b1, b2);
    SplitOneBlock(b2);
  }
}
