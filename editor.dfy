/**
 * The page's state: the ordered collection `vCardDataModel` that loading a file
 * replaces, that the input handlers edit in place and that the download button
 * exports.
 */
module Editor {
  import opened Wrappers
  import opened Text
  import opened Props
  import opened Parser
  import opened Versions
  import opened Serializer

  class Session {
    /** `vCardDataModel` */
    var entities: seq<Entity>

    /** Entity `i` sits at position `i` and has distinct keys. */
    ghost predicate Valid()
      reads this
    {
      forall i :: 0 <= i < |entities| ==> entities[i].index == i && Distinct(entities[i].data)
    }

    /** Every entity holds only what the parser can produce. */
    ghost predicate Parsable()
      reads this
    {
      forall i :: 0 <= i < |entities| ==> WellFormed(entities[i].data)
    }

    /** The page starts with an empty collection. */
    constructor ()
      ensures entities == [] && Valid() && Parsable()
    {
      entities := [];
    }

    /**
     * `displayVCard`: resets the collection and fills it with one entity per
     * block of `text`; `rejected` lists the keys it alerts about, in order.
     */
    method Load(text: string) returns (rejected: seq<string>)
      modifies this
      ensures entities == Loaded(text) && rejected == Rejected(text)
      ensures Valid() && Parsable()
    {
      var blocks := Split(text, "\n\n");
      ghost var all := Loaded(text);
      var loaded: seq<Entity> := [];
      rejected := [];
      var i := 0;
      while i < |blocks|
        invariant 0 <= i <= |blocks| == |all|
        invariant loaded == all[..i]
        invariant rejected == RejectedIn(blocks[..i])
      {
        var entry, keys := ParseEntity(blocks[i], i);
        assert all[..i + 1] == all[..i] + [entry];
        loaded := loaded + [entry];
        RejectedStep(blocks, i);
        rejected := rejected + keys;
        i := i + 1;
      }
      assert blocks[..i] == blocks;
      assert all[..i] == all;
      entities := loaded;
      LoadedShape(text);
    }

    /**
     * The input handler: `vCardDataModel[index].data[key] = value`. An index past
     * the end has no entity to write to, and then nothing changes.
     */
    method SetProperty(index: nat, key: string, value: string) returns (ok: bool)
      requires Valid()
      modifies this
      ensures ok <==> index < |old(entities)|
      ensures ok ==> entities == old(entities)[index := old(entities)[index].(data := Put(old(entities)[index].data, key, value))]
      ensures !ok ==> entities == old(entities)
      ensures Valid()
      ensures old(Parsable()) && StoredKey(key) && NoNewline(value) ==> Parsable()
    {
      if index >= |entities| {
        return false;
      }
      var e := entities[index];
      PutDistinct(e.data, key, value);
      EditWellFormed(e.data, key, value);
      entities := entities[index := e.(data := Put(e.data, key, value))];
      ok := true;
    }

    /** `downloadVCard`: the text of the file, or the failure that prevents it */
    method Export(version: string) returns (r: Result<string, Failure>)
      ensures r == Exported(entities, version)
    {
      var done: seq<seq<Prop>> := [];
      var lines: seq<string> := [];
      var i := 0;
      while i < |entities|
        invariant 0 <= i <= |entities|
        invariant PrepareAll(entities[..i], version) == Ok(done)
        invariant lines == AllLines(done, version)
      {
        assert entities[..i + 1][..i] == entities[..i];
        var prepared := Prepare(entities[i].data, version);
        if prepared.Err? {
          PrepareAllPrefix(entities, i + 1, version);
          return Err(prepared.error);
        }
        AllLinesAppend(done, prepared.value, version);
        lines := lines + EntityLines(prepared.value, version);
        done := done + [prepared.value];
        i := i + 1;
      }
      assert entities[..i] == entities;
      r := Ok(Join(lines, "\n"));
    }
  }

  /** Editing a parsable entity with a storable key and a one-line value keeps it parsable. */
  lemma EditWellFormed(m: seq<Prop>, k: string, v: string)
    ensures WellFormed(m) && StoredKey(k) && NoNewline(v) ==> WellFormed(Put(m, k, v))
  {
    PutMembers(m, k, v);
    if Distinct(m) {
      PutDistinct(m, k, v);
    }
  }
}
