/**
 * loadData and getTarget: the role document is applied to the data definition of a freshly
 * created dataset, and the target column is read from the same document.
 */
module RoleLoader {
  import opened Wrappers
  import opened JsonValue
  import opened Roles

  /** The role map of an ARX data definition, updated in place by setAttributeType. */
  class DataDefinition {
    var roles: map<string, Role>

    /** The definition of a dataset just created, with the roles it starts with. */
    constructor (initial: map<string, Role>)
      ensures roles == initial
    {
      roles := initial;
    }

    /** Binds name to role, replacing any role the column had. */
    method SetAttributeType(name: string, role: Role)
      modifies this
      ensures roles == old(roles)[name := role]
    {
      roles := roles[name := role];
    }
  }

  /** The QID loop: each entry read in turn and bound to its hierarchy. */
  method ApplyQids(definition: DataDefinition, qids: seq<Json>) returns (r: Result<seq<QidEntry>, JsonError>)
    modifies definition
    ensures r == DecodeEach(qids, DecodeQidEntry)
    ensures r.Ok? ==> definition.roles == WriteQids(old(definition.roles), r.value)
  {
    var i := 0;
    while i < |qids|
      invariant 0 <= i <= |qids|
      invariant DecodeEach(qids[..i], DecodeQidEntry).Ok?
      invariant definition.roles == WriteQids(old(definition.roles), DecodeEach(qids[..i], DecodeQidEntry).value)
    {
      var entry := DecodeQidEntry(qids[i]);
      assert qids[..i + 1][..i] == qids[..i];
      if entry.Err? {
        DecodeEachPrefixError(qids, DecodeQidEntry, i + 1);
        return Err(entry.error);
      }
      ghost var done := DecodeEach(qids[..i], DecodeQidEntry).value;
      assert DecodeEach(qids[..i + 1], DecodeQidEntry) == Ok(done + [entry.value]);
      assert (done + [entry.value])[..|done|] == done;
      definition.SetAttributeType(entry.value.colName, Hierarchy(entry.value.hierarchyPath));
      i := i + 1;
    }
    assert qids[..i] == qids;
    return DecodeEach(qids, DecodeQidEntry);
  }

  /** The IS loop and the SA loop: each element of the array key read as a name and given role. */
  method ApplyNames(definition: DataDefinition, names: seq<Json>, key: string, role: Role)
    returns (r: Result<seq<string>, JsonError>)
    modifies definition
    ensures r == DecodeEach(names, NameDecoder(key))
    ensures r.Ok? ==> definition.roles == WriteAll(old(definition.roles), r.value, role)
  {
    var i := 0;
    while i < |names|
      invariant 0 <= i <= |names|
      invariant DecodeEach(names[..i], NameDecoder(key)).Ok?
      invariant definition.roles == WriteAll(old(definition.roles), DecodeEach(names[..i], NameDecoder(key)).value, role)
    {
      var name := NameDecoder(key)(names[i]);
      assert names[..i + 1][..i] == names[..i];
      if name.Err? {
        DecodeEachPrefixError(names, NameDecoder(key), i + 1);
        return Err(name.error);
      }
      ghost var done := DecodeEach(names[..i], NameDecoder(key)).value;
      assert DecodeEach(names[..i + 1], NameDecoder(key)) == Ok(done + [name.value]);
      assert (done + [name.value])[..|done|] == done;
      definition.SetAttributeType(name.value, role);
      i := i + 1;
    }
    assert names[..i] == names;
    return DecodeEach(names, NameDecoder(key));
  }

  /**
   * loadData: the QID, IS and SA loops write into the definition of a new dataset whose initial
   * roles are dataRoles; the result pairs that definition with the target column. Any failed
   * read of the document is the error, and the partly written definition is dropped with it.
   */
  method LoadData(doc: Json, dataRoles: map<string, Role>, ldiv: bool)
    returns (r: Result<(DataDefinition, string), JsonError>)
    ensures Decode(doc).Err? ==> r == Err(Decode(doc).error)
    ensures Decode(doc).Ok? ==> r.Ok? && fresh(r.value.0)
    ensures Decode(doc).Ok? ==> r.value.0.roles == Assign(dataRoles, Decode(doc).value, ldiv)
    ensures r.Ok? ==> GetTarget(doc) == Ok(r.value.1)
  {
    if !doc.JObject? {
      return Err(NotAnObject("document"));
    }
    var obj := doc.members;
    var definition := new DataDefinition(dataRoles);

    var qidArray := MemberArray(obj, "QID");
    if qidArray.Err? {
      return Err(qidArray.error);
    }
    var qid := ApplyQids(definition, qidArray.value);
    if qid.Err? {
      return Err(qid.error);
    }

    var isArray := MemberArray(obj, "IS");
    if isArray.Err? {
      return Err(isArray.error);
    }
    var insensitive := ApplyNames(definition, isArray.value, "IS", Insensitive);
    if insensitive.Err? {
      return Err(insensitive.error);
    }

    var saArray := MemberArray(obj, "SA");
    if saArray.Err? {
      return Err(saArray.error);
    }
    var sensitive := ApplyNames(definition, saArray.value, "SA", SaRole(ldiv));
    if sensitive.Err? {
      return Err(sensitive.error);
    }

    var target := MemberString(obj, "target");
    if target.Err? {
      return Err(target.error);
    }
    return Ok((definition, target.value));
  }

  /** getTarget: only the target member of the document is read. */
  function GetTarget(doc: Json): (r: Result<string, JsonError>)
    ensures r.Ok? <==> doc.JObject? && "target" in doc.members && AsString(doc.members["target"]).Some?
    ensures r.Ok? ==> r.value == AsString(doc.members["target"]).value
  {
    if !doc.JObject? then Err(NotAnObject("document"))
    else MemberString(doc.members, "target")
  }

  /**
   * getTarget agrees with the target loadData returns, and a document getTarget cannot read
   * a target from is one loadData fails on too.
   */
  lemma TargetAgreement(doc: Json)
    ensures Decode(doc).Ok? ==> GetTarget(doc) == Ok(Decode(doc).value.target)
    ensures GetTarget(doc).Err? ==> Decode(doc).Err?
  {
  }
}
