/**
 * The attribute-role document and the role map that loadData builds from it.
 * The document is read in a fixed order (QID, IS, SA, target) and the roles are written in
 * three passes, each write overwriting the role a column had before.
 */
module Roles {
  import opened Wrappers
  import opened JsonValue

  /** The role ARX's data definition records for a column. */
  datatype Role =
    | Hierarchy(path: string)   // quasi-identifying, generalised by the hierarchy file at path
    | Insensitive
    | Sensitive

  datatype QidEntry = QidEntry(colName: string, hierarchyPath: string)

  /** The role document once every read of it has succeeded. */
  datatype RoleSpec = RoleSpec(qid: seq<QidEntry>, insensitive: seq<string>, sensitive: seq<string>, target: string)

  /** The role an SA column gets: sensitive only when l-diversity is asked for. */
  function SaRole(ldiv: bool): (r: Role)
    ensures r == Sensitive <==> ldiv
    ensures r == Insensitive <==> !ldiv
  {
    if ldiv then Sensitive else Insensitive
  }

  // ---------------------------------------------------------------------------
  // Reading the document

  /** Reads the elements of an array in order; the first element that cannot be read is the error. */
  function DecodeEach<T>(es: seq<Json>, decode: Json -> Result<T, JsonError>): Result<seq<T>, JsonError>
  {
    if |es| == 0 then Ok([])
    else
      var init :- DecodeEach(es[..|es| - 1], decode);
      var last :- decode(es[|es| - 1]);
      Ok(init + [last])
  }

  /** e is an object whose colName and hierarchyPath members getAsString reads as q's two strings. */
  predicate EntryReadsAs(e: Json, q: QidEntry)
  {
    && e.JObject?
    && "colName" in e.members && AsString(e.members["colName"]) == Some(q.colName)
    && "hierarchyPath" in e.members && AsString(e.members["hierarchyPath"]) == Some(q.hierarchyPath)
  }

  /** The elements of es are read by getAsString as the strings of names, in order. */
  predicate NamesReadAs(es: seq<Json>, names: seq<string>)
  {
    |es| == |names| && forall i :: 0 <= i < |es| ==> AsString(es[i]) == Some(names[i])
  }

  /** The document is an object whose QID, IS, SA arrays and target read, element by element, as spec. */
  predicate Describes(doc: Json, spec: RoleSpec)
  {
    && doc.JObject?
    && "QID" in doc.members && doc.members["QID"].JArray?
    && |doc.members["QID"].elems| == |spec.qid|
    && (forall i :: 0 <= i < |spec.qid| ==> EntryReadsAs(doc.members["QID"].elems[i], spec.qid[i]))
    && "IS" in doc.members && doc.members["IS"].JArray?
    && NamesReadAs(doc.members["IS"].elems, spec.insensitive)
    && "SA" in doc.members && doc.members["SA"].JArray?
    && NamesReadAs(doc.members["SA"].elems, spec.sensitive)
    && "target" in doc.members && AsString(doc.members["target"]) == Some(spec.target)
  }

  /** qidArray.get(i).getAsJsonObject(), then its colName and hierarchyPath as strings. */
  function DecodeQidEntry(e: Json): (r: Result<QidEntry, JsonError>)
    ensures r.Ok? ==> EntryReadsAs(e, r.value)
    ensures forall q :: EntryReadsAs(e, q) ==> r == Ok(q)
  {
    if !e.JObject? then Err(NotAnObject("QID entry"))
    else
      var colName :- MemberString(e.members, "colName");
      var hierarchyPath :- MemberString(e.members, "hierarchyPath");
      Ok(QidEntry(colName, hierarchyPath))
  }

  /** array.get(i).getAsString() for the elements of the IS or SA array named key. */
  function NameDecoder(key: string): Json -> Result<string, JsonError>
  {
    e => if AsString(e).Some? then Ok(AsString(e).value) else Err(NotAString(key))
  }

  /** Every read loadData makes of the document, in the order it makes them. */
  function Decode(doc: Json): (r: Result<RoleSpec, JsonError>)
    ensures r.Ok? ==> Describes(doc, r.value)
  {
    if !doc.JObject? then Err(NotAnObject("document"))
    else
      var qidArray :- MemberArray(doc.members, "QID");
      var qid :- DecodeEach(qidArray, DecodeQidEntry);
      var isArray :- MemberArray(doc.members, "IS");
      var insensitive :- DecodeEach(isArray, NameDecoder("IS"));
      var saArray :- MemberArray(doc.members, "SA");
      var sensitive :- DecodeEach(saArray, NameDecoder("SA"));
      var target :- MemberString(doc.members, "target");
      DecodeEachOk(qidArray, DecodeQidEntry);
      DecodeEachOk(isArray, NameDecoder("IS"));
      DecodeEachOk(saArray, NameDecoder("SA"));
      Ok(RoleSpec(qid, insensitive, sensitive, target))
  }

  /** The document loads as spec exactly when it describes spec: no other document and no other spec. */
  lemma DecodeExact(doc: Json, spec: RoleSpec)
    ensures Decode(doc) == Ok(spec) <==> Describes(doc, spec)
  {
    if Describes(doc, spec) {
      var obj := doc.members;
      var qs := obj["QID"].elems;
      var ins := obj["IS"].elems;
      var sa := obj["SA"].elems;
      DecodeEachOk(qs, DecodeQidEntry);
      DecodeEachOk(ins, NameDecoder("IS"));
      DecodeEachOk(sa, NameDecoder("SA"));
      var r := Decode(doc).value;
      assert r.qid == spec.qid;
      assert r.insensitive == spec.insensitive;
      assert r.sensitive == spec.sensitive;
    }
  }

  /** An error on a prefix of the array is the error of the whole array. */
  lemma {:induction false} DecodeEachPrefixError<T>(es: seq<Json>, decode: Json -> Result<T, JsonError>, n: nat)
    requires n <= |es|
    requires DecodeEach(es[..n], decode).Err?
    ensures DecodeEach(es, decode) == DecodeEach(es[..n], decode)
    decreases |es| - n
  {
    if n < |es| {
      assert es[..n + 1][..n] == es[..n];
      DecodeEachPrefixError(es, decode, n + 1);
    } else {
      assert es[..n] == es;
    }
  }

  /** The array reads without error exactly when every element does, and gives their values in order. */
  lemma {:induction false} DecodeEachOk<T>(es: seq<Json>, decode: Json -> Result<T, JsonError>)
    ensures DecodeEach(es, decode).Ok? <==> forall i :: 0 <= i < |es| ==> decode(es[i]).Ok?
    ensures DecodeEach(es, decode).Ok? ==>
      |DecodeEach(es, decode).value| == |es| &&
      forall i :: 0 <= i < |es| ==> DecodeEach(es, decode).value[i] == decode(es[i]).value
  {
    if |es| > 0 {
      var init := es[..|es| - 1];
      DecodeEachOk(init, decode);
      assert forall i :: 0 <= i < |init| ==> init[i] == es[i];
    }
  }

  // ---------------------------------------------------------------------------
  // The document format, written back as JSON

  function EncodeQidEntry(e: QidEntry): Json
  {
    JObject(map["colName" := JString(e.colName), "hierarchyPath" := JString(e.hierarchyPath)])
  }

  function EncodeQids(qid: seq<QidEntry>): (r: seq<Json>)
    ensures |r| == |qid| && forall i :: 0 <= i < |qid| ==> r[i] == EncodeQidEntry(qid[i])
  {
    seq(|qid|, i requires 0 <= i < |qid| => EncodeQidEntry(qid[i]))
  }

  function EncodeNames(names: seq<string>): (r: seq<Json>)
    ensures |r| == |names| && forall i :: 0 <= i < |names| ==> r[i] == JString(names[i])
  {
    seq(|names|, i requires 0 <= i < |names| => JString(names[i]))
  }

  /** The role document that holds spec. */
  function Encode(spec: RoleSpec): Json
  {
    JObject(map[
      "QID" := JArray(EncodeQids(spec.qid)),
      "IS" := JArray(EncodeNames(spec.insensitive)),
      "SA" := JArray(EncodeNames(spec.sensitive)),
      "target" := JString(spec.target)])
  }

  lemma DecodeEachNames(names: seq<string>, key: string)
    ensures DecodeEach(EncodeNames(names), NameDecoder(key)) == Ok(names)
  {
    var es := EncodeNames(names);
    DecodeEachOk(es, NameDecoder(key));
    assert forall i :: 0 <= i < |es| ==> NameDecoder(key)(es[i]) == Ok(names[i]);
    var r := DecodeEach(es, NameDecoder(key));
    assert r.value == names;
  }

  lemma DecodeEachQids(qid: seq<QidEntry>)
    ensures DecodeEach(EncodeQids(qid), DecodeQidEntry) == Ok(qid)
  {
    var es := EncodeQids(qid);
    DecodeEachOk(es, DecodeQidEntry);
    assert forall i :: 0 <= i < |es| ==> DecodeQidEntry(es[i]) == Ok(qid[i]);
    var r := DecodeEach(es, DecodeQidEntry);
    assert r.value == qid;
  }

  /** Every role document reads back as the spec it was written from. */
  lemma DecodeEncode(spec: RoleSpec)
    ensures Decode(Encode(spec)) == Ok(spec)
  {
    DecodeEachQids(spec.qid);
    DecodeEachNames(spec.insensitive, "IS");
    DecodeEachNames(spec.sensitive, "SA");
  }

  /** A document without a target member fails to load. */
  lemma MissingTargetFails(doc: Json)
    requires doc.JObject? && "target" !in doc.members
    ensures Decode(doc).Err?
  {
  }

  /** A QID entry without a hierarchyPath member makes the document fail to load. */
  lemma MissingHierarchyPathFails(doc: Json, j: nat)
    requires doc.JObject? && "QID" in doc.members && doc.members["QID"].JArray?
    requires j < |doc.members["QID"].elems|
    requires doc.members["QID"].elems[j].JObject?
    requires "hierarchyPath" !in doc.members["QID"].elems[j].members
    ensures Decode(doc).Err?
  {
    DecodeEachOk(doc.members["QID"].elems, DecodeQidEntry);
  }

  // ---------------------------------------------------------------------------
  // Writing the roles

  /**
   * The role map after setAttributeType(colName, hierarchy) for each QID entry in order. No
   * column loses its role, and every role that changes is the hierarchy of an entry naming it.
   */
  function WriteQids(m: map<string, Role>, qid: seq<QidEntry>): (r: map<string, Role>)
    ensures m.Keys <= r.Keys
    ensures forall c :: c in r && (c !in m || r[c] != m[c]) ==> QidRole(qid, c, r[c])
  {
    if |qid| == 0 then m
    else
      var e := qid[|qid| - 1];
      WriteQids(m, qid[..|qid| - 1])[e.colName := Hierarchy(e.hierarchyPath)]
  }

  /**
   * The role map after setAttributeType(name, role) for each name in order. No column loses its
   * role, and only the named columns change, each to role.
   */
  function WriteAll(m: map<string, Role>, names: seq<string>, role: Role): (r: map<string, Role>)
    ensures m.Keys <= r.Keys
    ensures forall c :: c in r && (c !in m || r[c] != m[c]) ==> c in names && r[c] == role
  {
    if |names| == 0 then m
    else WriteAll(m, names[..|names| - 1], role)[names[|names| - 1] := role]
  }

  /**
   * The role map after the three passes of loadData: QID, then IS, then SA. No column loses its
   * role, and every role that changes comes from a group of the document that names the column.
   */
  function Assign(m: map<string, Role>, spec: RoleSpec, ldiv: bool): (r: map<string, Role>)
    ensures m.Keys <= r.Keys
    ensures forall c :: c in r && (c !in m || r[c] != m[c]) ==>
      || (c in spec.sensitive && r[c] == SaRole(ldiv))
      || (c in spec.insensitive && r[c] == Insensitive)
      || QidRole(spec.qid, c, r[c])
  {
    WriteAll(WriteAll(WriteQids(m, spec.qid), spec.insensitive, Insensitive), spec.sensitive, SaRole(ldiv))
  }

  predicate InQid(qid: seq<QidEntry>, c: string)
  {
    exists j :: 0 <= j < |qid| && qid[j].colName == c
  }

  /** role is the hierarchy of some QID entry that names c. */
  predicate QidRole(qid: seq<QidEntry>, c: string, role: Role)
  {
    exists j :: 0 <= j < |qid| && qid[j].colName == c && role == Hierarchy(qid[j].hierarchyPath)
  }

  /** j is the last QID entry that names c. */
  predicate LastQidEntry(qid: seq<QidEntry>, c: string, j: int)
  {
    0 <= j < |qid| && qid[j].colName == c && forall k :: j < k < |qid| ==> qid[k].colName != c
  }

  /** The set of column names the document mentions in any of its three groups. */
  function Named(spec: RoleSpec): set<string>
  {
    (set e | e in spec.qid :: e.colName) + (set c | c in spec.insensitive) + (set c | c in spec.sensitive)
  }

  lemma {:induction false} WriteAllAt(m: map<string, Role>, names: seq<string>, role: Role, c: string)
    ensures c in names ==> c in WriteAll(m, names, role) && WriteAll(m, names, role)[c] == role
    ensures c !in names ==> (c in WriteAll(m, names, role) <==> c in m)
    ensures c !in names && c in m ==> WriteAll(m, names, role)[c] == m[c]
  {
    if |names| > 0 {
      var init := names[..|names| - 1];
      WriteAllAt(m, init, role, c);
      assert names == init + [names[|names| - 1]];
    }
  }

  lemma {:induction false} WriteQidsAt(m: map<string, Role>, qid: seq<QidEntry>, c: string)
    ensures c in WriteQids(m, qid) <==> c in m || InQid(qid, c)
    ensures !InQid(qid, c) && c in m ==> WriteQids(m, qid)[c] == m[c]
    ensures forall j :: LastQidEntry(qid, c, j) ==> WriteQids(m, qid)[c] == Hierarchy(qid[j].hierarchyPath)
  {
    if |qid| > 0 {
      var init := qid[..|qid| - 1];
      WriteQidsAt(m, init, c);
      assert forall j :: 0 <= j < |init| ==> init[j] == qid[j];
      if InQid(qid, c) && qid[|qid| - 1].colName != c {
        var j :| 0 <= j < |qid| && qid[j].colName == c;
        assert InQid(init, c);
      }
      forall j | LastQidEntry(qid, c, j)
        ensures WriteQids(m, qid)[c] == Hierarchy(qid[j].hierarchyPath)
      {
        if j < |qid| - 1 {
          assert LastQidEntry(init, c, j);
        }
      }
    }
  }

  /** A column named in SA always ends with the SA role, whatever else names it. */
  lemma SensitiveWins(m: map<string, Role>, spec: RoleSpec, ldiv: bool, c: string)
    requires c in spec.sensitive
    ensures c in Assign(m, spec, ldiv) && Assign(m, spec, ldiv)[c] == SaRole(ldiv)
  {
    WriteAllAt(WriteAll(WriteQids(m, spec.qid), spec.insensitive, Insensitive), spec.sensitive, SaRole(ldiv), c);
  }

  /** A column named in IS and not in SA ends insensitive, even when QID names it too. */
  lemma InsensitiveBeatsQid(m: map<string, Role>, spec: RoleSpec, ldiv: bool, c: string)
    requires c in spec.insensitive && c !in spec.sensitive
    ensures c in Assign(m, spec, ldiv) && Assign(m, spec, ldiv)[c] == Insensitive
  {
    var afterIs := WriteAll(WriteQids(m, spec.qid), spec.insensitive, Insensitive);
    WriteAllAt(WriteQids(m, spec.qid), spec.insensitive, Insensitive, c);
    WriteAllAt(afterIs, spec.sensitive, SaRole(ldiv), c);
  }

  /** A column named only in QID gets the hierarchy of the last QID entry that names it. */
  lemma QidLastEntryWins(m: map<string, Role>, spec: RoleSpec, ldiv: bool, c: string, j: nat)
    requires c !in spec.insensitive && c !in spec.sensitive
    requires LastQidEntry(spec.qid, c, j)
    ensures c in Assign(m, spec, ldiv) && Assign(m, spec, ldiv)[c] == Hierarchy(spec.qid[j].hierarchyPath)
  {
    var afterQid := WriteQids(m, spec.qid);
    var afterIs := WriteAll(afterQid, spec.insensitive, Insensitive);
    WriteQidsAt(m, spec.qid, c);
    WriteAllAt(afterQid, spec.insensitive, Insensitive, c);
    WriteAllAt(afterIs, spec.sensitive, SaRole(ldiv), c);
  }

  /** A column the document does not name keeps the role it had, or stays without one. */
  lemma UnnamedUntouched(m: map<string, Role>, spec: RoleSpec, ldiv: bool, c: string)
    requires c !in Named(spec)
    ensures c in Assign(m, spec, ldiv) <==> c in m
    ensures c in m ==> Assign(m, spec, ldiv)[c] == m[c]
  {
    var afterQid := WriteQids(m, spec.qid);
    var afterIs := WriteAll(afterQid, spec.insensitive, Insensitive);
    forall j | 0 <= j < |spec.qid| ensures spec.qid[j].colName != c {
      assert spec.qid[j] in spec.qid;
    }
    WriteQidsAt(m, spec.qid, c);
    WriteAllAt(afterQid, spec.insensitive, Insensitive, c);
    WriteAllAt(afterIs, spec.sensitive, SaRole(ldiv), c);
  }

  /** The columns with a role afterwards are those that had one and those the document names. */
  lemma AssignKeys(m: map<string, Role>, spec: RoleSpec, ldiv: bool)
    ensures Assign(m, spec, ldiv).Keys == m.Keys + Named(spec)
  {
    forall c ensures c in Assign(m, spec, ldiv) <==> c in m || c in Named(spec) {
      AssignKeyAt(m, spec, ldiv, c);
    }
  }

  lemma AssignKeyAt(m: map<string, Role>, spec: RoleSpec, ldiv: bool, c: string)
    ensures c in Assign(m, spec, ldiv) <==> c in m || c in Named(spec)
  {
    var afterQid := WriteQids(m, spec.qid);
    var afterIs := WriteAll(afterQid, spec.insensitive, Insensitive);
    WriteQidsAt(m, spec.qid, c);
    WriteAllAt(afterQid, spec.insensitive, Insensitive, c);
    WriteAllAt(afterIs, spec.sensitive, SaRole(ldiv), c);
    assert InQid(spec.qid, c) <==> c in (set e | e in spec.qid :: e.colName) by {
      if c in (set e | e in spec.qid :: e.colName) {
        var e :| e in spec.qid && e.colName == c;
        var j :| 0 <= j < |spec.qid| && spec.qid[j] == e;
      }
      if InQid(spec.qid, c) {
        var j :| 0 <= j < |spec.qid| && spec.qid[j].colName == c;
        assert spec.qid[j] in spec.qid;
      }
    }
  }

  /** Flipping ldiv changes only the roles of the columns named in SA. */
  lemma FlipLdivOnlySensitive(m: map<string, Role>, spec: RoleSpec, c: string)
    requires c !in spec.sensitive
    ensures c in Assign(m, spec, true) <==> c in Assign(m, spec, false)
    ensures c in Assign(m, spec, true) ==> Assign(m, spec, true)[c] == Assign(m, spec, false)[c]
  {
    var afterIs := WriteAll(WriteQids(m, spec.qid), spec.insensitive, Insensitive);
    WriteAllAt(afterIs, spec.sensitive, Sensitive, c);
    WriteAllAt(afterIs, spec.sensitive, Insensitive, c);
  }

  /** The worked example: two QID columns and one SA column, with l-diversity on. */
  lemma ExampleAssignment()
    ensures Assign(map[], RoleSpec([QidEntry("age", "h1.csv"), QidEntry("zip", "h2.csv")], [], ["income"], "t"), true)
         == map["age" := Hierarchy("h1.csv"), "zip" := Hierarchy("h2.csv"), "income" := Sensitive]
  {
    var qid := [QidEntry("age", "h1.csv"), QidEntry("zip", "h2.csv")];
    assert qid[..1] == [QidEntry("age", "h1.csv")];
    assert WriteQids(map[], qid[..1]) == map["age" := Hierarchy("h1.csv")];
    var sa := ["income"];
    assert sa[..0] == [];
  }
}
