/**
 * `prepare(dataModel, version)`: copy an entity's properties, repair them for
 * the target version, then delete the keys the version does not allow.
 */
module Versions {
  import opened Wrappers
  import opened Props

  /** Why no properties are produced: `return;` after `no N defined!`, or the throw after `unknown version` */
  datatype Failure = MissingName | UnknownVersion

  /** `keysToDelete[version]`; `None` for a version the table does not list */
  function DenyList(version: string): Option<seq<string>> {
    if version == "2.1" then
      Some(["ANNIVERSARY", "CALADRURI", "CALURI", "CATEGORIES", "CLASS", "CLIENTPIDMAP", "FBURL",
            "GENDER", "IMPP", "KIND", "MEMBER", "NAME", "NICKNAME", "PRODID", "PROFILE", "RELATED",
            "SORT-STRING", "SOURCE", "XML"])
    else if version == "3.0" then
      Some(["ANNIVERSARY", "CATEGORIES", "KIND", "LANG", "MEMBER", "RELATED", "XML"])
    else if version == "4.0" then
      Some(["AGENT", "CLASS", "MAILER", "NAME", "PROFILE"])
    else None
  }

  /** JavaScript truthiness of a looked-up value: present and not the empty string */
  predicate Truthy(v: Option<string>) {
    v.Some? && v.value != ""
  }

  /** The `switch (version)`: only 2.1 repairs, by copying FN into a missing or empty N */
  function Repaired(m: seq<Prop>, version: string): Result<seq<Prop>, Failure> {
    if version == "2.1" && !Truthy(Get(m, "N")) then
      if Truthy(Get(m, "FN")) then Ok(Put(m, "N", Get(m, "FN").value)) else Err(MissingName)
    else Ok(m)
  }

  /** `keys.forEach(key => { delete model[key]; })` */
  function DeleteAll(m: seq<Prop>, keys: seq<string>): seq<Prop> {
    if keys == [] then m else Delete(DeleteAll(m, keys[..|keys| - 1]), keys[|keys| - 1])
  }

  function Prepared(m: seq<Prop>, version: string): Result<seq<Prop>, Failure> {
    match Repaired(m, version)
    case Err(e) => Err(e)
    case Ok(r) =>
      match DenyList(version)
      case None => Err(UnknownVersion)
      case Some(keys) => Ok(DeleteAll(r, keys))
  }

  /**
   * `prepare`. The deep copy is the value `data` itself: sequences are values,
   * so nothing done here reaches the caller's entity.
   */
  method Prepare(data: seq<Prop>, version: string) returns (r: Result<seq<Prop>, Failure>)
    ensures r == Prepared(data, version)
  {
    var model := data;
    if version == "2.1" {
      if !Truthy(Get(model, "N")) {
        if Truthy(Get(model, "FN")) {
          model := Put(model, "N", Get(model, "FN").value);
        } else {
          return Err(MissingName);
        }
      }
    }
    // 3.0 and 4.0 repair nothing; any other version only raises an alert here
    var keys := DenyList(version);
    if keys.None? {
      return Err(UnknownVersion);
    }
    ghost var repaired := model;
    var i := 0;
    while i < |keys.value|
      invariant 0 <= i <= |keys.value|
      invariant model == DeleteAll(repaired, keys.value[..i])
    {
      assert keys.value[..i + 1][..i] == keys.value[..i];
      model := Delete(model, keys.value[i]);
      i := i + 1;
    }
    assert keys.value[..i] == keys.value;
    r := Ok(model);
  }

  /** Deleting the keys one by one is one filter by the whole list. */
  lemma {:induction false} DeleteAllIsWithout(m: seq<Prop>, keys: seq<string>)
    ensures DeleteAll(m, keys) == Without(m, keys)
    decreases |keys|
  {
    if keys == [] {
      WithoutAbsent(m, keys);
    } else {
      var front := keys[..|keys| - 1];
      DeleteAllIsWithout(m, front);
      WithoutThenDelete(m, front, keys[|keys| - 1]);
      assert front + [keys[|keys| - 1]] == keys;
    }
  }

  /** The result of a successful `prepare` is the repaired map filtered by the deny-list. */
  lemma PreparedIsFilter(m: seq<Prop>, version: string)
    requires Prepared(m, version).Ok?
    ensures DenyList(version).Some? && Repaired(m, version).Ok?
    ensures Prepared(m, version).value == Without(Repaired(m, version).value, DenyList(version).value)
  {
    DeleteAllIsWithout(Repaired(m, version).value, DenyList(version).value);
  }

  /** `prepare` fails exactly for an unknown version, or for 2.1 with neither N nor FN. */
  lemma PreparedFailure(m: seq<Prop>, version: string)
    ensures Prepared(m, version) == Err(UnknownVersion) <==>
      version != "2.1" && version != "3.0" && version != "4.0"
    ensures Prepared(m, version) == Err(MissingName) <==>
      version == "2.1" && !Truthy(Get(m, "N")) && !Truthy(Get(m, "FN"))
    ensures Prepared(m, version).Ok? <==>
      (version == "3.0" || version == "4.0" || (version == "2.1" && (Truthy(Get(m, "N")) || Truthy(Get(m, "FN")))))
  {
  }

  /** No key of the version's deny-list survives, and every other key but N keeps its value. */
  lemma PreparedPrunes(m: seq<Prop>, version: string)
    requires Prepared(m, version).Ok?
    ensures forall k :: k in DenyList(version).value ==> Get(Prepared(m, version).value, k) == None
    ensures forall k :: k in DenyList(version).value ==> k !in Keys(Prepared(m, version).value)
    ensures forall k :: k !in DenyList(version).value && k != "N" ==> Get(Prepared(m, version).value, k) == Get(m, k)
  {
    var r := Prepared(m, version).value;
    var repaired := Repaired(m, version).value;
    var keys := DenyList(version).value;
    PreparedIsFilter(m, version);
    WithoutSemantics(repaired, keys);
    PutSemantics(m, "N", if Get(m, "FN").Some? then Get(m, "FN").value else "");
    forall k | k in keys ensures k !in Keys(r) {
      GetPresent(r, k);
    }
  }

  /** For 2.1, a missing or empty N is filled from FN; otherwise N is untouched. */
  lemma PreparedName(m: seq<Prop>, version: string)
    requires Prepared(m, version).Ok?
    ensures version == "2.1" && !Truthy(Get(m, "N")) ==> Get(Prepared(m, version).value, "N") == Get(m, "FN")
    ensures version == "2.1" ==> Truthy(Get(Prepared(m, version).value, "N"))
    ensures version != "2.1" ==> Get(Prepared(m, version).value, "N") == Get(m, "N")
  {
    var keys := DenyList(version).value;
    NamesNotDenied(version);
    PreparedIsFilter(m, version);
    WithoutSemantics(Repaired(m, version).value, keys);
    PutSemantics(m, "N", if Get(m, "FN").Some? then Get(m, "FN").value else "");
  }

  /** No deny-list names N or FN. */
  lemma NamesNotDenied(version: string)
    requires DenyList(version).Some?
    ensures "N" !in DenyList(version).value && "FN" !in DenyList(version).value
  {
  }

  /**
   * Order: 3.0, 4.0 and 2.1 with a name keep the surviving properties in place;
   * a repaired N that was absent goes last, one that was empty stays where it was.
   */
  lemma PreparedOrder(m: seq<Prop>, version: string)
    requires Prepared(m, version).Ok?
    ensures version != "2.1" || Truthy(Get(m, "N")) ==>
      Prepared(m, version).value == Without(m, DenyList(version).value)
    ensures version == "2.1" && Get(m, "N").None? ==>
      Prepared(m, version).value == Without(m, DenyList(version).value) + [Prop("N", Get(m, "FN").value)]
    ensures version == "2.1" && Get(m, "N") == Some("") ==>
      Keys(Prepared(m, version).value) == Keys(Without(m, DenyList(version).value))
  {
    PreparedIsFilter(m, version);
    if version == "2.1" && !Truthy(Get(m, "N")) {
      RepairedOrder(m, DenyList(version).value);
    }
  }

  lemma RepairedOrder(m: seq<Prop>, keys: seq<string>)
    requires !Truthy(Get(m, "N")) && Truthy(Get(m, "FN")) && "N" !in keys
    ensures Get(m, "N").None? ==>
      Without(Put(m, "N", Get(m, "FN").value), keys) == Without(m, keys) + [Prop("N", Get(m, "FN").value)]
    ensures Get(m, "N") == Some("") ==>
      Keys(Without(Put(m, "N", Get(m, "FN").value), keys)) == Keys(Without(m, keys))
  {
    var fn := Get(m, "FN").value;
    GetPresent(m, "N");
    if Get(m, "N").None? {
      PutAbsent(m, "N", fn);
      WithoutAppend(m, [Prop("N", fn)], keys);
    } else {
      PutKeepsPlace(m, "N", fn, keys);
    }
  }

  /** Overwriting a present key that the filter keeps does not move any key. */
  lemma {:induction false} PutKeepsPlace(m: seq<Prop>, k: string, v: string, keys: seq<string>)
    requires k in Keys(m) && k !in keys
    ensures Keys(Without(Put(m, k, v), keys)) == Keys(Without(m, keys))
  {
    assert Keys(m) == [m[0].key] + Keys(m[1..]);
    if m[0].key != k {
      PutKeepsPlace(m[1..], k, v, keys);
      assert Put(m, k, v) == [m[0]] + Put(m[1..], k, v);
      if m[0].key !in keys {
        assert Keys(Without(Put(m, k, v), keys)) == [m[0].key] + Keys(Without(Put(m[1..], k, v), keys));
      }
    } else {
      assert Put(m, k, v) == [Prop(k, v)] + m[1..];
      assert Keys(Without(Put(m, k, v), keys)) == [k] + Keys(Without(m[1..], keys));
    }
  }

  /** Preparing prepared properties again changes nothing. */
  lemma PreparedIdempotent(m: seq<Prop>, version: string)
    requires Prepared(m, version).Ok?
    ensures Prepared(Prepared(m, version).value, version) == Prepared(m, version)
  {
    var r := Prepared(m, version).value;
    var keys := DenyList(version).value;
    PreparedName(m, version);
    PreparedIsFilter(m, version);
    assert Repaired(r, version) == Ok(r);
    WithoutSemantics(Repaired(m, version).value, keys);
    WithoutAbsent(r, keys);
    DeleteAllIsWithout(r, keys);
  }

  /** `prepare` returns the properties unchanged exactly when nothing needs repair or pruning. */
  lemma PreparedUnchanged(m: seq<Prop>, version: string)
    ensures Prepared(m, version) == Ok(m) <==>
      DenyList(version).Some? && (version == "2.1" ==> Truthy(Get(m, "N"))) &&
      forall p :: p in m ==> p.key !in DenyList(version).value
  {
    if Prepared(m, version) == Ok(m) {
      PreparedName(m, version);
      PreparedIsFilter(m, version);
      WithoutSemantics(Repaired(m, version).value, DenyList(version).value);
    }
    if DenyList(version).Some? && (version == "2.1" ==> Truthy(Get(m, "N"))) &&
       forall p :: p in m ==> p.key !in DenyList(version).value {
      DeleteAllIsWithout(m, DenyList(version).value);
      WithoutAbsent(m, DenyList(version).value);
    }
  }
}
