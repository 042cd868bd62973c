/**
 * The property-key grammar `VALID_KEYS`: one of the listed property names,
 * optionally followed by `;` and a parameter text `(.*=.*,?)*`.
 */
module Grammar {
  import opened Wrappers
  import opened Text

  const PropertyNames: set<string> := {
    "BEGIN", "END", "SOURCE", "KIND", "XML", "FN", "N", "NICKNAME", "PHOTO", "BDAY",
    "ANNIVERSARY", "GENDER", "ADR", "TEL", "EMAIL", "IMPP", "LANG", "TZ", "GEO", "TITLE",
    "ROLE", "LOGO", "ORG", "MEMBER", "RELATED", "CATEGORIES", "NOTE", "PRODID", "REV", "SOUND",
    "UID", "CLIENTPIDMAP", "URL", "VERSION", "KEY", "FBURL", "CALADRURI", "CALURI"
  }

  /** The characters a regular-expression `.` does not match */
  predicate IsLineTerminator(c: char) {
    c == '\n' || c == '\r' || c as int == 0x2028 || c as int == 0x2029
  }

  /**
   * The text after `;`: `(.*=.*,?)*` matches the empty text, or any text on one
   * line that holds at least one `=` (the optional comma can be absorbed by `.*`).
   */
  predicate ValidParams(s: string) {
    s == "" || ('=' in s && forall i :: 0 <= i < |s| ==> !IsLineTerminator(s[i]))
  }

  /**
   * `VALID_KEYS.test(key)`. No property name holds a `;`, so the name is the text
   * before the first `;` and the parameters are the text after it.
   */
  predicate ValidKey(key: string) {
    match IndexOf(key, ";", 0)
    case None => key in PropertyNames
    case Some(p) => key[..p] in PropertyNames && ValidParams(key[p + 1..])
  }

  /** The grammar read as the regular expression states it. */
  ghost predicate MatchesKeyGrammar(key: string) {
    exists name :: name in PropertyNames &&
      (key == name || (StartsWith(key, name + ";") && ValidParams(key[|name| + 1..])))
  }

  lemma NamesAreSimple()
    ensures forall name :: name in PropertyNames ==> ';' !in name
  {
  }

  lemma NamesOnOneLine()
    ensures forall name :: name in PropertyNames ==> NoNewline(name) && name != ""
  {
  }

  /** The first-`;` reading agrees with the regular expression. */
  lemma ValidKeyGrammar(key: string)
    ensures ValidKey(key) <==> MatchesKeyGrammar(key)
  {
    if ValidKey(key) {
      ValidKeyMatches(key);
    }
    if MatchesKeyGrammar(key) {
      var name :| name in PropertyNames &&
        (key == name || (StartsWith(key, name + ";") && ValidParams(key[|name| + 1..])));
      NameIsSimple(name);
      MatchesValidKey(key, name);
    }
  }

  lemma ValidKeyMatches(key: string)
    requires ValidKey(key)
    ensures MatchesKeyGrammar(key)
  {
    match IndexOf(key, ";", 0)
    case None =>
    case Some(p) =>
      OccursAtChar(key, ';', p);
      var name := key[..p];
      assert key[..|name + ";"|] == name + ";";
  }

  lemma NameIsSimple(name: string)
    requires name in PropertyNames
    ensures ';' !in name
  {
    NamesAreSimple();
  }

  lemma MatchesValidKey(key: string, name: string)
    requires name in PropertyNames && ';' !in name
    requires key == name || (StartsWith(key, name + ";") && ValidParams(key[|name| + 1..]))
    ensures ValidKey(key)
  {
    if key == name {
      KeyParts(name, "");
    } else {
      var params := key[|name| + 1..];
      assert key == key[..|name| + 1] + params;
      KeyParts(name, params);
    }
  }

  /**
   * For a name without `;`: the bare name is valid exactly when it is listed, and
   * the name with parameters exactly when it is listed and the parameters are valid.
   */
  lemma KeyParts(name: string, params: string)
    requires ';' !in name
    ensures ValidKey(name) <==> name in PropertyNames
    ensures ValidKey(name + ";" + params) <==> name in PropertyNames && ValidParams(params)
  {
    forall j | 0 <= j <= |name| ensures !OccursAt(name, ";", j) {
      OccursAtChar(name, ';', j);
    }
    IndexOfAbsent(name, ";");
    var key := name + ";" + params;
    OccursAtChar(key, ';', |name|);
    forall j | 0 <= j < |name| ensures !OccursAt(key, ";", j) {
      OccursAtChar(key, ';', j);
      assert key[j] == name[j];
    }
    IndexOfFirst(key, ";", |name|);
    assert key[..|name|] == name && key[|name| + 1..] == params;
  }

  /** A valid key lies on one line. */
  lemma ValidKeyNoNewline(key: string)
    requires ValidKey(key)
    ensures NoNewline(key) && key != ""
  {
    NamesOnOneLine();
    match IndexOf(key, ";", 0)
    case None =>
    case Some(p) =>
      assert key == key[..p] + [key[p]] + key[p + 1..];
      OccursAtChar(key, ';', p);
      forall i | 0 <= i < |key| ensures key[i] != '\n' {
        if i < p {
          assert key[i] == key[..p][i];
        } else if i > p {
          assert key[i] == key[p + 1..][i - p - 1];
        }
      }
  }
}
