/**
 * Field validation: `VALUE_PATTERNS` and `validateInput`. Each regular expression
 * of the table is written out as a predicate over the characters of the value.
 * `\w` is `[A-Za-z0-9_]`, `\d` is `[0-9]`, and `\s` is the white-space and
 * line-terminator set of ECMAScript.
 */
module Validation {
  import opened Text
  import opened Props

  /** `\w` */
  predicate IsWord(c: char) {
    ('A' <= c <= 'Z') || ('a' <= c <= 'z') || ('0' <= c <= '9') || c == '_'
  }

  /** `\d` */
  predicate IsDigit(c: char) {
    '0' <= c <= '9'
  }

  /** `[a-zA-Z]` */
  predicate IsAsciiLetter(c: char) {
    ('A' <= c <= 'Z') || ('a' <= c <= 'z')
  }

  /** `\s`: tab, line feed, vertical tab, form feed, carriage return, the space separators, U+2028, U+2029 and U+FEFF */
  predicate IsSpace(c: char) {
    var n := c as int;
    n == 0x09 || n == 0x0A || n == 0x0B || n == 0x0C || n == 0x0D || n == 0x20 ||
    n == 0xA0 || n == 0x1680 || (0x2000 <= n <= 0x200A) || n == 0x2028 || n == 0x2029 ||
    n == 0x202F || n == 0x205F || n == 0x3000 || n == 0xFEFF
  }

  /** `[\w\s.,'-]`, the characters of names, titles and notes */
  predicate IsTextChar(c: char) {
    IsWord(c) || IsSpace(c) || c == '.' || c == ',' || c == '\'' || c == '-'
  }

  /** `[\w\s.,'-]*` */
  predicate AllText(s: string) {
    forall i :: 0 <= i < |s| ==> IsTextChar(s[i])
  }

  /** `[\w\s.,'-]+` */
  predicate IsText(s: string) {
    |s| > 0 && AllText(s)
  }

  /**
   * `;`-separated components of text characters, one per entry of `required`;
   * a component whose entry is true must be non-empty (`+`), the others may be empty (`*`).
   * A component cannot hold `;`, so each one ends at the next `;`.
   */
  predicate Components(v: string, required: seq<bool>)
    requires |required| > 0
    decreases |required|
  {
    if |required| == 1 then AllText(v) && (required[0] ==> v != "")
    else match IndexOf(v, ";", 0)
      case None => false
      case Some(p) => AllText(v[..p]) && (required[0] ==> p > 0) && Components(v[p + 1..], required[1..])
  }

  /** `[\w._%+-]` */
  predicate IsLocalChar(c: char) {
    IsWord(c) || c == '.' || c == '_' || c == '%' || c == '+' || c == '-'
  }

  /** `[\w.-]` */
  predicate IsDomainChar(c: char) {
    IsWord(c) || c == '.' || c == '-'
  }

  /** `v` reads local-part, `@` at `at`, domain, `.` at `dot`, then the top-level domain */
  predicate EmailParts(v: string, at: int, dot: int) {
    0 < at && at + 1 < dot && dot + 2 < |v| &&
    (forall i :: 0 <= i < at ==> IsLocalChar(v[i])) && v[at] == '@' &&
    (forall i :: at < i < dot ==> IsDomainChar(v[i])) && v[dot] == '.' &&
    (forall i :: dot < i < |v| ==> IsAsciiLetter(v[i]))
  }

  /** `^[\w._%+-]+@[\w.-]+\.[a-zA-Z]{2,}$` */
  predicate IsEmail(v: string) {
    exists at, dot :: 0 <= at < |v| && 0 <= dot < |v| && EmailParts(v, at, dot)
  }

  /** `[0-9\s()-]` */
  predicate IsPhoneChar(c: char) {
    IsDigit(c) || IsSpace(c) || c == '(' || c == ')' || c == '-'
  }

  /** `^\+?[0-9\s()-]+$`: a `+` can only be the optional first character */
  predicate IsTel(v: string) {
    var number := if |v| > 0 && v[0] == '+' then v[1..] else v;
    |number| > 0 && forall i :: 0 <= i < |number| ==> IsPhoneChar(number[i])
  }

  /** `[^\s]+` */
  predicate NonBlank(s: string) {
    |s| > 0 && forall i :: 0 <= i < |s| ==> !IsSpace(s[i])
  }

  /** `^(https?:\/\/[^\s]+)$` */
  predicate IsUrl(v: string) {
    (StartsWith(v, "http://") && NonBlank(v[7..])) || (StartsWith(v, "https://") && NonBlank(v[8..]))
  }

  /** `^\d{4}-\d{2}-\d{2}$` */
  predicate IsDate(v: string) {
    |v| == 10 && IsDigit(v[0]) && IsDigit(v[1]) && IsDigit(v[2]) && IsDigit(v[3]) && v[4] == '-' &&
    IsDigit(v[5]) && IsDigit(v[6]) && v[7] == '-' && IsDigit(v[8]) && IsDigit(v[9])
  }

  /** `^(M|F|O)$` */
  predicate IsGender(v: string) {
    v == "M" || v == "F" || v == "O"
  }

  datatype Pattern = Words | Name | Email | Phone | Address | Url | Note | Date | Gender

  const NameFields: seq<bool> := [true, true, false, false, false]
  const AddressFields: seq<bool> := [true, true, false, false, false, false, false]

  /** `VALUE_PATTERNS` */
  const ValuePatterns: map<string, Pattern> := map[
    "FN" := Words, "N" := Name, "EMAIL" := Email, "TEL" := Phone, "ADR" := Address,
    "ORG" := Words, "TITLE" := Words, "URL" := Url, "NOTE" := Note, "BDAY" := Date,
    "GENDER" := Gender, "IMPP" := Words, "X-ABLABEL" := Words
  ]

  /** `pattern.test(value)` */
  predicate Matches(pattern: Pattern, value: string) {
    match pattern
    case Words => IsText(value)
    case Name => Components(value, NameFields)
    case Email => IsEmail(value)
    case Phone => IsTel(value)
    case Address => Components(value, AddressFields)
    case Url => IsUrl(value)
    case Note => AllText(value)
    case Date => IsDate(value)
    case Gender => IsGender(value)
  }

  /** `validateInput(key, value)`: the pattern registered for the whole key; any value when there is none */
  predicate ValidateInput(key: string, value: string) {
    if key in ValuePatterns then Matches(ValuePatterns[key], value) else true
  }

  /** The validity sweep over the fields of one entity (`validateAllInputs`). */
  method ValidateAll(data: seq<Prop>) returns (valid: bool)
    ensures valid <==> forall i :: 0 <= i < |data| ==> ValidateInput(data[i].key, data[i].value)
  {
    valid := true;
    var i := 0;
    while i < |data|
      invariant 0 <= i <= |data|
      invariant valid <==> forall j :: 0 <= j < i ==> ValidateInput(data[j].key, data[j].value)
    {
      if !ValidateInput(data[i].key, data[i].value) {
        valid := false;
      }
      i := i + 1;
    }
  }

  /** A key without an entry of its own, parameters included, accepts every value. */
  lemma DefaultAccept(key: string, value: string)
    requires key !in ValuePatterns
    ensures ValidateInput(key, value)
  {
  }

  /**
   * A key with parameters never has a pattern of its own, since no key of the
   * table contains `;`, so it accepts every value.
   */
  lemma ParameterisedKeyAccepts(key: string, value: string)
    requires ';' in key
    ensures ValidateInput(key, value)
  {
  }

  /** The component matcher is the same as splitting on `;`. */
  lemma {:induction false} ComponentsSplit(v: string, required: seq<bool>)
    requires |required| > 0
    ensures Components(v, required) <==>
      var parts := Split(v, ";");
      |parts| == |required| &&
      forall i :: 0 <= i < |parts| ==> AllText(parts[i]) && (required[i] ==> parts[i] != "")
    decreases |required|
  {
    var parts := Split(v, ";");
    match IndexOf(v, ";", 0)
    case None =>
      assert parts == [v];
      if |required| == 1 {
        assert parts[0] == v;
      }
    case Some(p) =>
      OccursAtChar(v, ';', p);
      assert parts == [v[..p]] + Split(v[p + 1..], ";");
      if |required| == 1 {
        assert !IsTextChar(v[p]);
      } else {
        ComponentsSplit(v[p + 1..], required[1..]);
        var rest := Split(v[p + 1..], ";");
        assert parts[1..] == rest;
        if Components(v, required) {
          forall i | 0 <= i < |parts| ensures AllText(parts[i]) && (required[i] ==> parts[i] != "") {
            if i > 0 { assert parts[i] == rest[i - 1]; }
          }
        }
        if |parts| == |required| &&
           forall i :: 0 <= i < |parts| ==> AllText(parts[i]) && (required[i] ==> parts[i] != "") {
          forall i | 0 <= i < |rest| ensures AllText(rest[i]) && (required[1..][i] ==> rest[i] != "") {
            assert rest[i] == parts[i + 1];
          }
          assert Components(v[p + 1..], required[1..]);
          assert parts[0] == v[..p];
          assert AllText(v[..p]) && (required[0] ==> p > 0);
        }
      }
  }

  /** N has five components, the first two (family and given name) non-empty. */
  lemma NameShape(v: string)
    ensures ValidateInput("N", v) <==>
      var parts := Split(v, ";");
      |parts| == 5 && parts[0] != "" && parts[1] != "" &&
      forall i :: 0 <= i < 5 ==> AllText(parts[i])
  {
    ComponentsSplit(v, NameFields);
  }

  /** ADR has seven components, the first two non-empty. */
  lemma AddressShape(v: string)
    ensures ValidateInput("ADR", v) <==>
      var parts := Split(v, ";");
      |parts| == 7 && parts[0] != "" && parts[1] != "" &&
      forall i :: 0 <= i < 7 ==> AllText(parts[i])
  {
    ComponentsSplit(v, AddressFields);
  }

  /** A valid e-mail address holds exactly one `@` and ends in `.` and two or more letters. */
  lemma EmailShape(v: string)
    requires ValidateInput("EMAIL", v)
    ensures exists at :: 0 <= at < |v| && v[at] == '@' && forall j :: 0 <= j < |v| && v[j] == '@' ==> j == at
    ensures exists dot :: 0 <= dot <= |v| - 3 && v[dot] == '.' && forall j :: dot < j < |v| ==> IsAsciiLetter(v[j])
  {
    var at, dot :| 0 <= at < |v| && 0 <= dot < |v| && EmailParts(v, at, dot);
    forall j | 0 <= j < |v| && v[j] == '@' ensures j == at {
    }
  }

  /** A valid telephone number has `+` at most at position 0, and something after it. */
  lemma TelShape(v: string)
    requires ValidateInput("TEL", v)
    ensures forall i :: 0 <= i < |v| && v[i] == '+' ==> i == 0
    ensures exists i :: 0 <= i < |v| && v[i] != '+' && IsPhoneChar(v[i])
  {
    assert IsTel(v);
    TelChars(v);
    var k := if v[0] == '+' then 1 else 0;
    assert v[k] != '+' && IsPhoneChar(v[k]);
  }

  lemma TelChars(v: string)
    requires IsTel(v)
    ensures forall i :: 0 < i < |v| ==> IsPhoneChar(v[i])
    ensures v[0] == '+' || IsPhoneChar(v[0])
    ensures |v| >= 2 || v[0] != '+'
  {
    if v[0] == '+' {
      var number := v[1..];
      forall i | 0 < i < |v| ensures IsPhoneChar(v[i]) {
        assert v[i] == number[i - 1];
      }
    }
  }

  /** GENDER is exactly one of M, F and O. */
  lemma GenderExact(v: string)
    ensures ValidateInput("GENDER", v) <==> v in {"M", "F", "O"}
  {
  }

  /** BDAY is ten characters `dddd-dd-dd`; the calendar is not checked. */
  lemma DateShape(v: string)
    requires ValidateInput("BDAY", v)
    ensures |v| == 10 && v[4] == '-' && v[7] == '-'
    ensures forall i :: 0 <= i < 10 && i != 4 && i != 7 ==> IsDigit(v[i])
  {
  }

  /** NOTE accepts the empty text and nothing outside the text characters. */
  lemma NoteShape(v: string)
    ensures ValidateInput("NOTE", "")
    ensures ValidateInput("NOTE", v) <==> forall i :: 0 <= i < |v| ==> IsTextChar(v[i])
  {
  }

  /** A URL starts with `http://` or `https://` and holds no white space. */
  lemma UrlShape(v: string)
    requires ValidateInput("URL", v)
    ensures StartsWith(v, "http://") || StartsWith(v, "https://")
    ensures |v| > 7 && forall i :: 0 <= i < |v| ==> !IsSpace(v[i])
  {
    var n := if StartsWith(v, "http://") then 7 else 8;
    assert v[..n] == if n == 7 then "http://" else "https://";
    forall i | 0 <= i < |v| ensures !IsSpace(v[i]) {
      if i < n { assert v[i] == v[..n][i]; } else { assert v[i] == v[n..][i - n]; }
    }
  }
}
