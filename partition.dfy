/**
 * The field classifier of `parseRequest`: a request's flat `params` object is
 * split into the control fields (addressing of the outgoing mail), the private
 * fields (directives to the relay itself) and the data rows shown in the mail.
 */
module Partition {
  import opened Values

  /** The control fields, in the order `pick` visits them. */
  const FormFields: seq<string> := ["_from", "_subject", "_to", "_attachment"]

  /** The private fields, in the order `pick` visits them. */
  const PrivateFields: seq<string> := ["_fake", "_info", "_next"]

  /** The names the control fields take once their marker is stripped. */
  const ControlNames: set<string> := {"from", "subject", "to", "attachment"}

  /** The names the private fields take once their marker is stripped. */
  const PrivateNames: set<string> := {"fake", "info", "next"}

  predicate Reserved(k: string) {
    k in FormFields || k in PrivateFields
  }

  /**
   * `key.replace('_', '')`: a string pattern replaces its first occurrence
   * only, so everything before the first underscore and everything after it
   * is kept.
   */
  function StripMarker(k: string): (r: string)
    ensures '_' !in k ==> r == k
  {
    if k == [] then []
    else if k[0] == '_' then k[1..]
    else [k[0]] + StripMarker(k[1..])
  }

  /** Stripping removes the first underscore and keeps everything around it. */
  lemma {:induction false} StripMarkerFirst(k: string, i: nat)
    requires i < |k| && k[i] == '_' && '_' !in k[..i]
    ensures StripMarker(k) == k[..i] + k[i + 1..]
  {
    if i > 0 {
      assert k[0] == k[..i][0];
      assert k[1..][..i - 1] == k[1..i];
      assert '_' !in k[1..][..i - 1];
      StripMarkerFirst(k[1..], i - 1);
      assert k[..i] == [k[0]] + k[1..i];
      assert k[1..][i..] == k[i + 1..];
    }
  }

  /** A name that starts with the marker is the marker followed by its stripped form. */
  lemma StripLeadingMarker(k: string)
    requires |k| > 0 && k[0] == '_'
    ensures StripMarker(k) == k[1..] && "_" + StripMarker(k) == k
  {
    assert k == [k[0]] + k[1..];
  }

  /** Every reserved name is the marker followed by a lower-case letter and more. */
  lemma ReservedShape(k: string)
    requires Reserved(k)
    ensures |k| >= 3 && k[0] == '_' && 'a' <= k[1] <= 'z'
  {
  }

  /** The reserved names are the marker followed by the names stripping leaves. */
  lemma ReservedNames()
    ensures StripMarker("_from") == "from" && StripMarker("_subject") == "subject"
    ensures StripMarker("_to") == "to" && StripMarker("_attachment") == "attachment"
    ensures StripMarker("_fake") == "fake" && StripMarker("_info") == "info" && StripMarker("_next") == "next"
    ensures "_" + "from" == "_from" && "_" + "subject" == "_subject"
    ensures "_" + "to" == "_to" && "_" + "attachment" == "_attachment"
    ensures "_" + "fake" == "_fake" && "_" + "info" == "_info" && "_" + "next" == "_next"
  {
    StripLeadingMarker("_from");
    StripLeadingMarker("_subject");
    StripLeadingMarker("_to");
    StripLeadingMarker("_attachment");
    StripLeadingMarker("_fake");
    StripLeadingMarker("_info");
    StripLeadingMarker("_next");
    assert "_" + "from" == "_from" && "_" + "subject" == "_subject";
    assert "_" + "to" == "_to" && "_" + "attachment" == "_attachment";
    assert "_" + "fake" == "_fake" && "_" + "info" == "_info" && "_" + "next" == "_next";
  }

  /**
   * Stripping the marker maps the control fields onto the control names, and
   * putting the marker back gives the field again.
   */
  lemma ControlRoundTrip()
    ensures forall k :: k in FormFields ==> StripMarker(k) in ControlNames && k == "_" + StripMarker(k)
    ensures forall c :: c in ControlNames ==> "_" + c in FormFields && StripMarker("_" + c) == c
  {
    ReservedNames();
    forall k | k in FormFields ensures StripMarker(k) in ControlNames && k == "_" + StripMarker(k) {
      if k == "_from" {
      } else if k == "_subject" {
      } else if k == "_to" {
      } else {
      }
    }
    forall c | c in ControlNames ensures "_" + c in FormFields && StripMarker("_" + c) == c {
      if c == "from" {
      } else if c == "subject" {
      } else if c == "to" {
      } else {
      }
    }
  }

  /** The same holds for the private fields and the private names. */
  lemma PrivateRoundTrip()
    ensures forall k :: k in PrivateFields ==> StripMarker(k) in PrivateNames && k == "_" + StripMarker(k)
    ensures forall c :: c in PrivateNames ==> "_" + c in PrivateFields && StripMarker("_" + c) == c
  {
    ReservedNames();
    forall k | k in PrivateFields ensures StripMarker(k) in PrivateNames && k == "_" + StripMarker(k) {
      if k == "_fake" {
      } else if k == "_info" {
      } else {
      }
    }
    forall c | c in PrivateNames ensures "_" + c in PrivateFields && StripMarker("_" + c) == c {
      if c == "fake" {
      } else if c == "info" {
      } else {
      }
    }
  }

  /** No control name is a private name. */
  lemma NamesDisjoint()
    ensures ControlNames !! PrivateNames
  {
    assert "from"[1] != "fake"[1] && "from"[1] != "info"[1] && "from"[1] != "next"[1];
    assert |"subject"| != |"fake"| && |"to"| != |"fake"| && |"attachment"| != |"fake"|;
  }

  /** No two reserved names collide once their marker is stripped. */
  lemma ReservedRenamingInjective()
    ensures forall a, b :: Reserved(a) && Reserved(b) && StripMarker(a) == StripMarker(b) ==> a == b
  {
    ControlRoundTrip();
    PrivateRoundTrip();
    forall a, b | Reserved(a) && Reserved(b) && StripMarker(a) == StripMarker(b)
      ensures a == b
    {
      assert a == "_" + StripMarker(a) && b == "_" + StripMarker(b);
    }
  }

  /**
   * `chain(params).pick(names).mapKeys((value, key) => rename(key))`: `pick`
   * copies the named properties in the order of `names`, and `mapKeys` then
   * stores each under its new name.
   */
  function PickRenamed(params: seq<Prop>, names: seq<string>, rename: string -> string): map<string, Value> {
    if names == [] then map[]
    else
      var acc := PickRenamed(params, names[..|names| - 1], rename);
      var n := names[|names| - 1];
      match Find(params, n)
      case None => acc
      case Some(v) => acc[rename(n) := v]
  }

  /**
   * When the renaming keeps `names` apart, the picked object holds the new
   * name of exactly the names the request has, with their values.
   */
  lemma {:induction false} PickRenamedSpec(params: seq<Prop>, names: seq<string>, rename: string -> string)
    requires forall i, j :: 0 <= i < j < |names| ==> rename(names[i]) != rename(names[j])
    ensures forall i :: 0 <= i < |names| ==>
      (rename(names[i]) in PickRenamed(params, names, rename) <==> Has(params, names[i]))
    ensures forall i :: 0 <= i < |names| && Has(params, names[i]) ==>
      PickRenamed(params, names, rename)[rename(names[i])] == Find(params, names[i]).value
    ensures forall k :: k in PickRenamed(params, names, rename) ==>
      exists i :: 0 <= i < |names| && rename(names[i]) == k
  {
    if names != [] {
      var m := |names| - 1;
      var init := names[..m];
      PickRenamedSpec(params, init, rename);
      var acc := PickRenamed(params, init, rename);
      var r := PickRenamed(params, names, rename);
      assert r == if Has(params, names[m]) then acc[rename(names[m]) := Find(params, names[m]).value] else acc;
      forall i | 0 <= i < m
        ensures names[i] == init[i] && rename(names[i]) != rename(names[m])
      {
      }
    }
  }

  /** The control fields, renamed: the first part of `formData`. */
  function ControlPart(params: seq<Prop>): map<string, Value> {
    PickRenamed(params, FormFields, StripMarker)
  }

  /** The private fields, renamed: the first part of `fields`. */
  function PrivatePart(params: seq<Prop>): map<string, Value> {
    PickRenamed(params, PrivateFields, StripMarker)
  }

  /** Stripping keeps the control fields apart: their stripped names differ in length. */
  lemma ControlFieldsApart()
    ensures forall i, j :: 0 <= i < j < |FormFields| ==> StripMarker(FormFields[i]) != StripMarker(FormFields[j])
  {
    forall i | 0 <= i < |FormFields|
      ensures |StripMarker(FormFields[i])| == |FormFields[i]| - 1
    {
      StripLeadingMarker(FormFields[i]);
    }
    assert |FormFields[0]| == 5 && |FormFields[1]| == 8 && |FormFields[2]| == 3 && |FormFields[3]| == 11;
  }

  /** Stripping keeps the private fields apart: their stripped names start differently. */
  lemma PrivateFieldsApart()
    ensures forall i, j :: 0 <= i < j < |PrivateFields| ==> StripMarker(PrivateFields[i]) != StripMarker(PrivateFields[j])
  {
    forall i | 0 <= i < |PrivateFields|
      ensures StripMarker(PrivateFields[i])[0] == PrivateFields[i][1]
    {
      StripLeadingMarker(PrivateFields[i]);
    }
    assert PrivateFields[0][1] == 'f' && PrivateFields[1][1] == 'i' && PrivateFields[2][1] == 'n';
  }

  /**
   * `formData` holds exactly those of `from`, `subject`, `to` and `attachment`
   * whose marked form the request has, each with the request's value.
   */
  lemma ControlPartSpec(params: seq<Prop>)
    ensures forall c :: c in ControlPart(params) <==> c in ControlNames && Has(params, "_" + c)
    ensures forall c :: c in ControlPart(params) ==> ControlPart(params)[c] == Find(params, "_" + c).value
  {
    ControlFieldsApart();
    PickRenamedSpec(params, FormFields, StripMarker);
    ControlRoundTrip();
    var r := ControlPart(params);
    forall c | c in r ensures c in ControlNames && "_" + c in FormFields {
      var i :| 0 <= i < |FormFields| && StripMarker(FormFields[i]) == c;
      assert FormFields[i] in FormFields;
    }
    forall c | c in ControlNames ensures c in r <==> Has(params, "_" + c) {
      var i :| 0 <= i < |FormFields| && FormFields[i] == "_" + c;
    }
  }

  /** The control part holds control names only. */
  lemma ControlPartNames(params: seq<Prop>)
    ensures ControlPart(params).Keys <= ControlNames
  {
    ControlPartSpec(params);
  }

  /** Reading a control field from `formData` reads the request's marked field. */
  lemma ControlValue(params: seq<Prop>, c: string)
    requires c in ControlNames
    ensures c in ControlPart(params) <==> Has(params, "_" + c)
    ensures Get(ControlPart(params), c) == Param(params, "_" + c)
  {
    ControlPartSpec(params);
  }

  /**
   * `fields` starts out with exactly those of `fake`, `info` and `next` whose
   * marked form the request has, each with the request's value.
   */
  lemma PrivatePartSpec(params: seq<Prop>)
    ensures forall c :: c in PrivatePart(params) <==> c in PrivateNames && Has(params, "_" + c)
    ensures forall c :: c in PrivatePart(params) ==> PrivatePart(params)[c] == Find(params, "_" + c).value
  {
    PrivateFieldsApart();
    PickRenamedSpec(params, PrivateFields, StripMarker);
    PrivateRoundTrip();
    var r := PrivatePart(params);
    forall c | c in r ensures c in PrivateNames && "_" + c in PrivateFields {
      var i :| 0 <= i < |PrivateFields| && StripMarker(PrivateFields[i]) == c;
      assert PrivateFields[i] in PrivateFields;
    }
    forall c | c in PrivateNames ensures c in r <==> Has(params, "_" + c) {
      var i :| 0 <= i < |PrivateFields| && PrivateFields[i] == "_" + c;
    }
  }

  /** Reading a private field from `fields` reads the request's marked field. */
  lemma PrivateValue(params: seq<Prop>, c: string)
    requires c in PrivateNames
    ensures Get(PrivatePart(params), c) == Param(params, "_" + c)
  {
    PrivatePartSpec(params);
  }

  /** `omit(names)`: the properties not named, in their original order. */
  function Omit(ps: seq<Prop>, names: seq<string>): (r: seq<Prop>)
    ensures forall p :: p in r <==> p in ps && p.key !in names
    ensures |r| <= |ps|
    ensures DistinctKeys(ps) ==> DistinctKeys(r)
  {
    if ps == [] then []
    else
      var rest := Omit(ps[1..], names);
      assert forall p :: p in ps <==> p == ps[0] || p in ps[1..];
      if ps[0].key in names then rest
      else
        assert DistinctKeys(ps) ==> forall p :: p in rest ==> p.key != ps[0].key by {
          if DistinctKeys(ps) {
            forall p | p in rest ensures p.key != ps[0].key {
              var i :| 0 <= i < |ps[1..]| && ps[1..][i] == p;
              assert ps[i + 1] == p;
            }
          }
        }
        [ps[0]] + rest
  }

  /** `omit` works property by property: it keeps the request's order. */
  lemma {:induction false} OmitAppend(ps: seq<Prop>, qs: seq<Prop>, names: seq<string>)
    ensures Omit(ps + qs, names) == Omit(ps, names) + Omit(qs, names)
  {
    if ps == [] {
      assert ps + qs == qs;
    } else {
      assert (ps + qs)[1..] == ps[1..] + qs;
      OmitAppend(ps[1..], qs, names);
    }
  }

  /**
   * Assigning property `k` of an ordered object: a property already there
   * keeps its place and takes the new value; a new one goes last.
   */
  function Assign(ps: seq<Prop>, k: string, v: Value): (r: seq<Prop>)
    requires DistinctKeys(ps)
    ensures DistinctKeys(r)
    ensures |r| == if Has(ps, k) then |ps| else |ps| + 1
    ensures forall i :: 0 <= i < |ps| ==> r[i] == if ps[i].key == k then Prop(k, v) else ps[i]
    ensures !Has(ps, k) ==> r == ps + [Prop(k, v)]
  {
    if Has(ps, k) then
      seq(|ps|, i requires 0 <= i < |ps| => if ps[i].key == k then Prop(k, v) else ps[i])
    else
      ps + [Prop(k, v)]
  }

  /**
   * lodash `mapKeys(obj, (value, key) => f(key))` on an ordered object: the
   * properties are visited in order and each is assigned under its new key,
   * so a later property whose new key is taken overwrites the earlier value.
   */
  function MapKeys(ps: seq<Prop>, f: string -> string): (r: seq<Prop>)
    ensures DistinctKeys(r)
    ensures |r| <= |ps|
  {
    if ps == [] then []
    else
      var last := ps[|ps| - 1];
      Assign(MapKeys(ps[..|ps| - 1], f), f(last.key), last.value)
  }

  /** After an assignment the object has the assigned key and every key it had. */
  lemma AssignKeys(ps: seq<Prop>, k: string, v: Value, k': string)
    requires DistinctKeys(ps)
    ensures Has(Assign(ps, k, v), k') <==> Has(ps, k') || k' == k
  {
    var r := Assign(ps, k, v);
    if Has(ps, k') {
      var i :| 0 <= i < |ps| && ps[i].key == k';
      assert r[i].key == k';
    }
    if k' == k {
      if Has(ps, k) {
        var i :| 0 <= i < |ps| && ps[i].key == k;
        assert r[i].key == k;
      } else {
        assert r[|ps|].key == k;
      }
    }
    if Has(r, k') {
      var i :| 0 <= i < |r| && r[i].key == k';
      if i < |ps| {
        assert ps[i].key == k' || k' == k;
      }
    }
  }

  /** Every property after an assignment is the assigned one or one kept from before. */
  lemma AssignRows(ps: seq<Prop>, k: string, v: Value, row: Prop)
    requires DistinctKeys(ps)
    requires row in Assign(ps, k, v)
    ensures row == Prop(k, v) || (row in ps && row.key != k)
  {
    var r := Assign(ps, k, v);
    var i :| 0 <= i < |r| && r[i] == row;
    if i < |ps| {
      assert ps[i] in ps;
    }
  }

  /**
   * `row` carries the value of the last property of `ps` whose new key under
   * `f` is the row's key.
   */
  ghost predicate FromLastWithKey(ps: seq<Prop>, f: string -> string, row: Prop) {
    exists j :: 0 <= j < |ps| && f(ps[j].key) == row.key && row.value == ps[j].value &&
      forall j' :: j < j' < |ps| ==> f(ps[j'].key) != row.key
  }

  /** A property whose key `last` does not produce keeps its origin when `last` is appended. */
  lemma FromLastExtend(init: seq<Prop>, last: Prop, f: string -> string, row: Prop)
    requires FromLastWithKey(init, f, row) && f(last.key) != row.key
    ensures FromLastWithKey(init + [last], f, row)
  {
    var ps := init + [last];
    var j :| 0 <= j < |init| && f(init[j].key) == row.key && row.value == init[j].value &&
      forall j' :: j < j' < |init| ==> f(init[j'].key) != row.key;
    assert ps[j] == init[j];
    forall j' | j < j' < |ps| ensures f(ps[j'].key) != row.key {
      if j' < |init| {
        assert ps[j'] == init[j'];
      }
    }
  }

  /**
   * Every property of the mapped object comes from the last property of the
   * input whose new key it carries.
   */
  lemma {:induction false} MapKeysSound(ps: seq<Prop>, f: string -> string)
    ensures forall row :: row in MapKeys(ps, f) ==> FromLastWithKey(ps, f, row)
  {
    if ps != [] {
      var init := ps[..|ps| - 1];
      var last := ps[|ps| - 1];
      MapKeysSound(init, f);
      var acc := MapKeys(init, f);
      assert ps == init + [last];
      forall row | row in MapKeys(ps, f) ensures FromLastWithKey(ps, f, row) {
        AssignRows(acc, f(last.key), last.value, row);
        if row.key == f(last.key) {
          assert f(ps[|ps| - 1].key) == row.key;
        } else {
          FromLastExtend(init, last, f, row);
        }
      }
    }
  }

  /** Every property of the input has its new key in the mapped object. */
  lemma {:induction false} MapKeysComplete(ps: seq<Prop>, f: string -> string)
    ensures forall p :: p in ps ==> Has(MapKeys(ps, f), f(p.key))
  {
    if ps != [] {
      var init := ps[..|ps| - 1];
      var last := ps[|ps| - 1];
      MapKeysComplete(init, f);
      var acc := MapKeys(init, f);
      assert ps == init + [last];
      forall p | p in ps ensures Has(MapKeys(ps, f), f(p.key)) {
        AssignKeys(acc, f(last.key), last.value, f(p.key));
      }
    }
  }

  /** A property whose new key is not taken yet is appended to the mapped object. */
  lemma MapKeysAppendFresh(init: seq<Prop>, last: Prop, f: string -> string)
    requires !Has(MapKeys(init, f), f(last.key))
    ensures MapKeys(init + [last], f) == MapKeys(init, f) + [Prop(f(last.key), last.value)]
  {
    var ps := init + [last];
    assert ps[..|ps| - 1] == init;
    var acc := MapKeys(init, f);
  }

  /** When no two keys map to the same new key, order and values are kept. */
  lemma {:induction false} MapKeysInjective(ps: seq<Prop>, f: string -> string)
    requires forall i, j :: 0 <= i < j < |ps| ==> f(ps[i].key) != f(ps[j].key)
    ensures |MapKeys(ps, f)| == |ps|
    ensures forall i :: 0 <= i < |ps| ==> MapKeys(ps, f)[i] == Prop(f(ps[i].key), ps[i].value)
  {
    if ps != [] {
      var m := |ps| - 1;
      var init := ps[..m];
      var last := ps[m];
      MapKeysInjective(init, f);
      var acc := MapKeys(init, f);
      assert !Has(acc, f(last.key)) by {
        forall i | 0 <= i < |acc| ensures acc[i].key != f(last.key) {
          assert init[i] == ps[i];
        }
      }
      MapKeysAppendFresh(init, last, f);
      assert ps == init + [last];
      forall i | 0 <= i < m ensures init[i] == ps[i] {
      }
    }
  }

  /** `omit(PRIVATE_FIELDS).omit(FORM_FIELDS)`: the properties that are data. */
  function DataProps(params: seq<Prop>): seq<Prop> {
    Omit(Omit(params, PrivateFields), FormFields)
  }

  /**
   * The data rows, `{key: startCase(key), value}` for every unreserved
   * property; `title` stands for lodash's `startCase`.
   */
  function DataRows(params: seq<Prop>, title: string -> string): seq<Prop> {
    MapKeys(DataProps(params), title)
  }

  /**
   * No data row comes from a reserved field; each row carries the value of
   * the last unreserved property whose title is the row's key; every
   * unreserved property, however close to a reserved name, gives a row; and
   * there are no more rows than unreserved properties.
   */
  lemma DataRowsSpec(params: seq<Prop>, title: string -> string)
    ensures forall p :: p in DataProps(params) <==> p in params && !Reserved(p.key)
    ensures forall row :: row in DataRows(params, title) ==>
      exists p :: p in params && !Reserved(p.key) && title(p.key) == row.key && row.value == p.value
    ensures forall p :: p in params && !Reserved(p.key) ==> Has(DataRows(params, title), title(p.key))
    ensures |DataRows(params, title)| <= |DataProps(params)|
    ensures DistinctKeys(DataRows(params, title))
  {
    var data := DataProps(params);
    var rows := DataRows(params, title);
    MapKeysSound(data, title);
    MapKeysComplete(data, title);
    forall row | row in rows
      ensures exists p :: p in params && !Reserved(p.key) && title(p.key) == row.key && row.value == p.value
    {
      assert FromLastWithKey(data, title, row);
      var j :| 0 <= j < |data| && title(data[j].key) == row.key && row.value == data[j].value;
      assert data[j] in data;
    }
  }

  /**
   * Names that only resemble a reserved field, such as `to` without the
   * marker or `_TO` in another case, are data and give a row.
   */
  lemma NearMissesAreData(params: seq<Prop>, title: string -> string)
    ensures !Reserved("to") && !Reserved("_TO")
    ensures forall p :: p in params && (p.key == "to" || p.key == "_TO") ==>
      Has(DataRows(params, title), title(p.key))
  {
    if Reserved("to") {
      ReservedShape("to");
    }
    if Reserved("_TO") {
      ReservedShape("_TO");
    }
    DataRowsSpec(params, title);
  }

  /** The number of unreserved properties of `ps`. */
  function DataCount(ps: seq<Prop>): nat {
    if ps == [] then 0
    else DataCount(ps[..|ps| - 1]) + (if Reserved(ps[|ps| - 1].key) then 0 else 1)
  }

  /** `omit` on a single property drops it exactly when it is named. */
  lemma OmitOne(p: Prop, names: seq<string>)
    ensures Omit([p], names) == if p.key in names then [] else [p]
  {
    assert [p][1..] == [];
  }

  /** A property added last is dropped when reserved and kept last otherwise. */
  lemma DataPropsAppend(ps: seq<Prop>, p: Prop)
    ensures DataProps(ps + [p]) == DataProps(ps) + (if Reserved(p.key) then [] else [p])
  {
    var kept := Omit(ps, PrivateFields);
    OmitAppend(ps, [p], PrivateFields);
    OmitOne(p, PrivateFields);
    if p.key in PrivateFields {
      assert kept + [] == kept;
    } else {
      OmitAppend(kept, [p], FormFields);
      OmitOne(p, FormFields);
    }
  }

  /** There are as many data properties as unreserved properties. */
  lemma {:induction false} DataPropsCount(params: seq<Prop>)
    ensures |DataProps(params)| == DataCount(params)
  {
    if params != [] {
      var init := params[..|params| - 1];
      var last := params[|params| - 1];
      assert params == init + [last];
      DataPropsAppend(init, last);
      DataPropsCount(init);
    }
  }

  /**
   * The unreserved property at position `i` of the request is data property
   * number `DataCount(params[..i])`: the unreserved properties before it, in
   * the request's order.
   */
  lemma {:induction false} DataPropsAt(params: seq<Prop>, i: nat)
    requires i < |params| && !Reserved(params[i].key)
    ensures DataCount(params[..i]) < |DataProps(params)|
    ensures DataProps(params)[DataCount(params[..i])] == params[i]
  {
    var n := |params| - 1;
    var init := params[..n];
    var last := params[n];
    assert params == init + [last];
    DataPropsAppend(init, last);
    var tail := if Reserved(last.key) then [] else [last];
    assert DataProps(params) == DataProps(init) + tail;
    if i < n {
      assert params[..i] == init[..i] && init[i] == params[i];
      DataPropsAt(init, i);
    } else {
      assert params[..i] == init;
      DataPropsCount(init);
      assert tail == [params[i]];
    }
  }

  /** Of two unreserved properties, the earlier one in the request has the smaller position. */
  lemma {:induction false} DataCountGrows(ps: seq<Prop>, i: nat, j: nat)
    requires i < j <= |ps| && !Reserved(ps[i].key)
    ensures DataCount(ps[..i]) < DataCount(ps[..j])
  {
    assert ps[..j][..j - 1] == ps[..j - 1];
    if j > i + 1 {
      DataCountGrows(ps, i, j - 1);
    } else {
      assert ps[..j][j - 1] == ps[i];
    }
  }

  /**
   * When no two unreserved properties share a title, the unreserved property
   * at position `i` of the request gives row number `DataCount(params[..i])`,
   * its title with its value: the rows follow the request's order.
   */
  lemma DataRowsInOrder(params: Params, title: string -> string)
    requires forall p, q :: p in params && q in params && !Reserved(p.key) && !Reserved(q.key) && p.key != q.key ==>
      title(p.key) != title(q.key)
    ensures |DataRows(params, title)| == DataCount(params)
    ensures forall i :: 0 <= i < |params| && !Reserved(params[i].key) ==>
      DataCount(params[..i]) < |DataRows(params, title)| &&
      DataRows(params, title)[DataCount(params[..i])] == Prop(title(params[i].key), params[i].value)
  {
    var data := DataProps(params);
    assert DistinctKeys(data);
    forall a, b | 0 <= a < b < |data| ensures title(data[a].key) != title(data[b].key) {
      assert data[a] in data && data[b] in data;
    }
    MapKeysInjective(data, title);
    DataPropsCount(params);
    forall i | 0 <= i < |params| && !Reserved(params[i].key)
      ensures DataCount(params[..i]) < |DataRows(params, title)| &&
        DataRows(params, title)[DataCount(params[..i])] == Prop(title(params[i].key), params[i].value)
    {
      DataPropsAt(params, i);
    }
  }

  /**
   * The three groups partition the request: every property is exactly one of
   * a control field (in `formData` under its stripped name, value unchanged),
   * a private field (likewise in `fields`) or a data row's source.
   */
  lemma PartitionExhaustive(params: Params, title: string -> string)
    ensures forall i :: 0 <= i < |params| ==>
      var p := params[i];
      (p.key in FormFields && p.key !in PrivateFields &&
        StripMarker(p.key) in ControlPart(params) && ControlPart(params)[StripMarker(p.key)] == p.value) ||
      (p.key in PrivateFields && p.key !in FormFields &&
        StripMarker(p.key) in PrivatePart(params) && PrivatePart(params)[StripMarker(p.key)] == p.value) ||
      (!Reserved(p.key) && Has(DataRows(params, title), title(p.key)))
    ensures ControlPart(params).Keys <= ControlNames
    ensures PrivatePart(params).Keys <= PrivateNames
    ensures ControlPart(params).Keys !! PrivatePart(params).Keys
  {
    ControlRoundTrip();
    PrivateRoundTrip();
    NamesDisjoint();
    ControlPartSpec(params);
    PrivatePartSpec(params);
    DataRowsSpec(params, title);
    forall i | 0 <= i < |params|
      ensures var p := params[i];
        (p.key in FormFields && p.key !in PrivateFields &&
          StripMarker(p.key) in ControlPart(params) && ControlPart(params)[StripMarker(p.key)] == p.value) ||
        (p.key in PrivateFields && p.key !in FormFields &&
          StripMarker(p.key) in PrivatePart(params) && PrivatePart(params)[StripMarker(p.key)] == p.value) ||
        (!Reserved(p.key) && Has(DataRows(params, title), title(p.key)))
    {
      var p := params[i];
      FindAt(params, i);
      assert p in params;
      if p.key in FormFields {
        assert "_" + StripMarker(p.key) == p.key;
      } else if p.key in PrivateFields {
        assert "_" + StripMarker(p.key) == p.key;
      }
    }
  }
}
