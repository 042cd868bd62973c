/**
 * Loading: `displayVCard` splits the text into blocks on a blank line and
 * `parseEntity` turns each block into an entity, one line at a time.
 */
module Parser {
  import opened Wrappers
  import opened Text
  import opened Props
  import opened Grammar

  /** One contact: `metadata.version`, `metadata.index` and `data` of a model entry */
  datatype Entity = Entity(version: Option<string>, index: nat, data: seq<Prop>)

  /** `line.split(':')[0]` */
  function KeyOf(line: string): string {
    Split(line, ":")[0]
  }

  /** `line.split(':').slice(1).join(':')` */
  function ValueOf(line: string): string {
    Join(Split(line, ":")[1..], ":")
  }

  /** What the body of the `forEach` over the lines does with one line */
  datatype LineAction = Skip | SetVersion(version: string) | Reject(key: string) | Store(key: string, value: string)

  function Classify(line: string): LineAction {
    if line == "" || StartsWith(line, "BEGIN") || StartsWith(line, "END") then Skip
    else if StartsWith(line, "VERSION") then SetVersion(ValueOf(line))
    else if !ValidKey(KeyOf(line)) then Reject(KeyOf(line))
    else Store(KeyOf(line), ValueOf(line))
  }

  /** The entry being filled, and the keys reported as invalid so far */
  datatype ParseState = ParseState(version: Option<string>, data: seq<Prop>, rejected: seq<string>)

  const Start: ParseState := ParseState(None, [], [])

  function Step(st: ParseState, line: string): ParseState {
    match Classify(line)
    case Skip => st
    case SetVersion(v) => st.(version := Some(v))
    case Reject(k) => st.(rejected := st.rejected + [k])
    case Store(k, v) => st.(data := Put(st.data, k, v))
  }

  /** The state after the lines, taken in order */
  function Run(st: ParseState, lines: seq<string>): ParseState {
    if lines == [] then st else Step(Run(st, lines[..|lines| - 1]), lines[|lines| - 1])
  }

  /** Running the lines of `a + b` is running `a` and then `b`. */
  lemma {:induction false} RunAppend(st: ParseState, a: seq<string>, b: seq<string>)
    ensures Run(st, a + b) == Run(Run(st, a), b)
    decreases |b|
  {
    if b == [] {
      assert a + b == a;
    } else {
      assert (a + b)[..|a + b| - 1] == a + b[..|b| - 1];
      RunAppend(st, a, b[..|b| - 1]);
    }
  }

  function ParsedEntity(block: string, index: nat): Entity {
    var st := Run(Start, Split(block, "\n"));
    Entity(st.version, index, st.data)
  }

  function RejectedKeys(block: string): seq<string> {
    Run(Start, Split(block, "\n")).rejected
  }

  /** `parseEntity(block, index)`, returning the entry and the keys it alerted about */
  method ParseEntity(block: string, index: nat) returns (entry: Entity, rejected: seq<string>)
    ensures entry == ParsedEntity(block, index)
    ensures rejected == RejectedKeys(block)
  {
    var lines := Split(block, "\n");
    var version: Option<string> := None;
    var data: seq<Prop> := [];
    rejected := [];
    var i := 0;
    while i < |lines|
      invariant 0 <= i <= |lines|
      invariant Run(Start, lines[..i]) == ParseState(version, data, rejected)
    {
      var line := lines[i];
      var key := KeyOf(line);
      var value := ValueOf(line);
      assert lines[..i + 1][..i] == lines[..i];
      if line == "" || StartsWith(line, "BEGIN") || StartsWith(line, "END") {
        // structural and empty lines are not stored
      } else if StartsWith(line, "VERSION") {
        version := Some(value);
      } else if !ValidKey(key) {
        rejected := rejected + [key];
      } else {
        data := Put(data, key, value);
      }
      i := i + 1;
    }
    assert lines[..i] == lines;
    entry := Entity(version, index, data);
  }

  /** The model after loading `text`: one entity per block, numbered from 0 */
  function Loaded(text: string): seq<Entity> {
    var blocks := Split(text, "\n\n");
    seq(|blocks|, i requires 0 <= i < |blocks| => ParsedEntity(blocks[i], i))
  }

  function RejectedIn(blocks: seq<string>): seq<string> {
    if blocks == [] then [] else RejectedIn(blocks[..|blocks| - 1]) + RejectedKeys(blocks[|blocks| - 1])
  }

  lemma RejectedStep(blocks: seq<string>, i: nat)
    requires i < |blocks|
    ensures RejectedIn(blocks[..i + 1]) == RejectedIn(blocks[..i]) + RejectedKeys(blocks[i])
  {
    assert blocks[..i + 1][..i] == blocks[..i];
  }

  /** Every key reported while loading `text`, in order */
  function Rejected(text: string): seq<string> {
    RejectedIn(Split(text, "\n\n"))
  }

  /** What the parser guarantees of a stored key */
  predicate StoredKey(k: string) {
    ValidKey(k) && ':' !in k &&
    !StartsWith(k, "BEGIN") && !StartsWith(k, "END") && !StartsWith(k, "VERSION")
  }

  /** Properties as the parser produces them: unique stored keys, values on one line */
  predicate WellFormed(m: seq<Prop>) {
    Distinct(m) && forall p :: p in m ==> StoredKey(p.key) && NoNewline(p.value)
  }

  /**
   * The key is the text before the first `:`, the value everything after it,
   * later colons included; a line without `:` is all key and has the value "".
   */
  lemma LineFields(line: string)
    ensures ':' !in KeyOf(line)
    ensures ':' in line ==> line == KeyOf(line) + ":" + ValueOf(line)
    ensures ':' !in line ==> KeyOf(line) == line && ValueOf(line) == ""
  {
    ContainsChar(line, ':');
    match IndexOf(line, ":", 0)
    case None =>
      assert Split(line, ":") == [line];
    case Some(i) =>
      FirstColon(line, i);
  }

  /** The fields of a line whose first `:` is at `i` */
  lemma FirstColon(line: string, i: nat)
    requires IndexOf(line, ":", 0) == Some(i)
    ensures KeyOf(line) == line[..i] && ':' !in line[..i]
    ensures line == KeyOf(line) + ":" + ValueOf(line)
  {
    var parts := Split(line, ":");
    OccursAtChar(line, ':', i);
    var rest := line[i + 1..];
    assert parts == [line[..i]] + Split(rest, ":");
    assert parts[1..] == Split(rest, ":");
    JoinSplit(rest, ":");
    forall j | 0 <= j < i ensures line[..i][j] != ':' {
      OccursAtChar(line, ':', j);
    }
    assert line == line[..i] + ":" + rest;
  }

  /** A `key:value` line whose key has no `:` splits back into that key and value. */
  lemma FieldLine(k: string, v: string)
    requires ':' !in k
    ensures KeyOf(k + ":" + v) == k && ValueOf(k + ":" + v) == v
  {
    var line := k + ":" + v;
    LineFields(line);
    assert line[|k|] == ':';
    assert line[..|k|] == k;
    assert line[|k| + 1..] == v;
  }

  lemma StartsWithPrefix(k: string, line: string, prefix: string)
    requires StartsWith(line, k) && StartsWith(k, prefix)
    ensures StartsWith(line, prefix)
  {
    assert line[..|prefix|] == k[..|prefix|];
  }

  /** If a `key:value` line starts with a word that has no `:`, so does its key. */
  lemma LinePrefix(k: string, v: string, word: string)
    requires ':' !in k && ':' !in word && StartsWith(k + ":" + v, word)
    ensures StartsWith(k, word)
  {
    var line := k + ":" + v;
    assert line[|k|] == ':';
    assert |word| <= |k|;
    assert line[..|word|] == k[..|word|];
  }

  /**
   * A `key:value` line whose key has no `:` and is not structural is stored
   * when the key is valid and reported otherwise.
   */
  lemma ClassifyField(k: string, v: string)
    requires ':' !in k
    requires !StartsWith(k, "BEGIN") && !StartsWith(k, "END") && !StartsWith(k, "VERSION")
    ensures Classify(k + ":" + v) == if ValidKey(k) then Store(k, v) else Reject(k)
  {
    var line := k + ":" + v;
    FieldLine(k, v);
    if StartsWith(line, "BEGIN") { LinePrefix(k, v, "BEGIN"); }
    if StartsWith(line, "END") { LinePrefix(k, v, "END"); }
    if StartsWith(line, "VERSION") { LinePrefix(k, v, "VERSION"); }
  }

  /** A stored line puts its property into the entry and changes nothing else. */
  lemma StepStore(st: ParseState, line: string, k: string, v: string)
    requires Classify(line) == Store(k, v)
    ensures Step(st, line) == ParseState(st.version, Put(st.data, k, v), st.rejected)
  {
  }

  /** Only a line starting with `VERSION` changes the version. */
  lemma StepVersion(st: ParseState, line: string)
    ensures Step(st, line).version ==
      if StartsWith(line, "VERSION") then Some(ValueOf(line)) else st.version
  {
    if StartsWith(line, "VERSION") {
      assert line[0] == 'V';
      assert !StartsWith(line, "BEGIN") && !StartsWith(line, "END");
    }
  }

  /** A stored line yields a key the parser guarantees and a value on one line. */
  lemma StoreWellFormed(line: string)
    requires NoNewline(line) && Classify(line).Store?
    ensures StoredKey(Classify(line).key) && NoNewline(Classify(line).value)
  {
    var k, v := KeyOf(line), ValueOf(line);
    LineFields(line);
    if ':' in line {
      assert line[..|k|] == k;
      assert StartsWith(line, k);
      forall i | 0 <= i < |v| ensures v[i] != '\n' {
        assert v[i] == line[|k| + 1 + i];
      }
    }
    assert StartsWith(line, k);
    if StartsWith(k, "BEGIN") { StartsWithPrefix(k, line, "BEGIN"); }
    if StartsWith(k, "END") { StartsWithPrefix(k, line, "END"); }
    if StartsWith(k, "VERSION") { StartsWithPrefix(k, line, "VERSION"); }
  }

  lemma {:induction false} RunWellFormed(st: ParseState, lines: seq<string>)
    requires WellFormed(st.data)
    requires forall i :: 0 <= i < |lines| ==> NoNewline(lines[i])
    ensures WellFormed(Run(st, lines).data)
    decreases |lines|
  {
    if lines != [] {
      var prefix, line := lines[..|lines| - 1], lines[|lines| - 1];
      RunWellFormed(st, prefix);
      var before := Run(st, prefix).data;
      match Classify(line)
      case Store(k, v) =>
        StoreWellFormed(line);
        PutMembers(before, k, v);
        PutDistinct(before, k, v);
      case _ =>
    }
  }

  /** The lines of a block hold no line feed. */
  lemma LinesOfBlock(block: string)
    ensures forall i :: 0 <= i < |Split(block, "\n")| ==> NoNewline(Split(block, "\n")[i])
  {
    var lines := Split(block, "\n");
    SplitPiecesFree(block, "\n");
    forall i | 0 <= i < |lines| ensures NoNewline(lines[i]) {
      ContainsChar(lines[i], '\n');
    }
  }

  /** Every stored key matches the key grammar; keys are unique; values lie on one line. */
  lemma ParsedWellFormed(block: string, index: nat)
    ensures WellFormed(ParsedEntity(block, index).data)
  {
    LinesOfBlock(block);
    RunWellFormed(Start, Split(block, "\n"));
  }

  /** Loading gives one entity per block, in order, each numbered by its position. */
  lemma LoadedShape(text: string)
    ensures |Loaded(text)| == |Split(text, "\n\n")| >= 1
    ensures forall i :: 0 <= i < |Loaded(text)| ==>
      Loaded(text)[i] == ParsedEntity(Split(text, "\n\n")[i], i) &&
      Loaded(text)[i].index == i && WellFormed(Loaded(text)[i].data)
  {
    var blocks := Split(text, "\n\n");
    forall i | 0 <= i < |blocks| ensures WellFormed(ParsedEntity(blocks[i], i).data) {
      ParsedWellFormed(blocks[i], i);
    }
  }

  /** An empty block, such as the one after a trailing blank line, is an entity without properties. */
  lemma EmptyBlock(index: nat)
    ensures ParsedEntity("", index) == Entity(None, index, [])
    ensures RejectedKeys("") == []
  {
    assert Split("", "\n") == [""];
    assert [""][..0] == [];
  }

  /** The value of the last line that starts with `VERSION` */
  function LastVersion(lines: seq<string>): Option<string> {
    if lines == [] then None
    else if StartsWith(lines[|lines| - 1], "VERSION") then Some(ValueOf(lines[|lines| - 1]))
    else LastVersion(lines[..|lines| - 1])
  }

  /** The version is set by the last `VERSION` line, and stays unset without one. */
  lemma {:induction false} ParsedVersion(lines: seq<string>)
    ensures Run(Start, lines).version == LastVersion(lines)
    decreases |lines|
  {
    if lines != [] {
      var line := lines[|lines| - 1];
      ParsedVersion(lines[..|lines| - 1]);
      StepVersion(Run(Start, lines[..|lines| - 1]), line);
    }
  }

  /** The keys of the stored lines, in order, repeats included */
  function StoredKeys(lines: seq<string>): seq<string> {
    if lines == [] then []
    else
      var line := lines[|lines| - 1];
      StoredKeys(lines[..|lines| - 1]) + (if Classify(line).Store? then [Classify(line).key] else [])
  }

  /** The first occurrence of each element, in order */
  function Dedup(s: seq<string>): seq<string> {
    if s == [] then []
    else
      var d := Dedup(s[..|s| - 1]);
      if s[|s| - 1] in d then d else d + [s[|s| - 1]]
  }

  /** The value of the last stored line with key `k` */
  function LastStored(lines: seq<string>, k: string): Option<string> {
    if lines == [] then None
    else
      var line := lines[|lines| - 1];
      if Classify(line).Store? && Classify(line).key == k then Some(Classify(line).value)
      else LastStored(lines[..|lines| - 1], k)
  }

  lemma {:induction false} StoredKeysAppend(a: seq<string>, b: seq<string>)
    ensures StoredKeys(a + b) == StoredKeys(a) + StoredKeys(b)
    decreases |b|
  {
    if b == [] {
      assert a + b == a;
    } else {
      assert (a + b)[..|a + b| - 1] == a + b[..|b| - 1];
      StoredKeysAppend(a, b[..|b| - 1]);
    }
  }

  /**
   * A repeated key keeps the value of its last line and the position of its first:
   * lookups give the last stored value and the keys come in order of first appearance.
   */
  lemma {:induction false} ParsedData(lines: seq<string>)
    ensures forall k :: Get(Run(Start, lines).data, k) == LastStored(lines, k)
    ensures Keys(Run(Start, lines).data) == Dedup(StoredKeys(lines))
    decreases |lines|
  {
    if lines != [] {
      var prefix, line := lines[..|lines| - 1], lines[|lines| - 1];
      ParsedData(prefix);
      var before := Run(Start, prefix).data;
      assert StoredKeys(lines)[..|StoredKeys(lines)| - (if Classify(line).Store? then 1 else 0)] == StoredKeys(prefix);
      match Classify(line)
      case Store(k, v) =>
        PutSemantics(before, k, v);
        var s := StoredKeys(lines);
        assert s == StoredKeys(prefix) + [k];
        assert s[..|s| - 1] == StoredKeys(prefix);
      case _ =>
        assert StoredKeys(lines) == StoredKeys(prefix);
    }
  }

  /**
   * A line whose key fails the grammar is reported and dropped; the lines around
   * it are parsed as if it were not there.
   */
  lemma {:induction false} RejectedLineIgnored(st: ParseState, a: seq<string>, bad: string, b: seq<string>)
    requires Classify(bad).Reject?
    ensures Run(st, a + [bad] + b).version == Run(st, a + b).version
    ensures Run(st, a + [bad] + b).data == Run(st, a + b).data
    ensures Run(st, a + [bad]).rejected == Run(st, a).rejected + [KeyOf(bad)]
    decreases |b|
  {
    assert (a + [bad])[..|a|] == a;
    if b == [] {
      assert a + [bad] + b == a + [bad];
      assert a + b == a;
    } else {
      var b', x := b[..|b| - 1], b[|b| - 1];
      RejectedLineIgnored(st, a, bad, b');
      assert (a + [bad] + b)[..|a + [bad] + b| - 1] == a + [bad] + b';
      assert (a + b)[..|a + b| - 1] == a + b';
    }
  }
}
