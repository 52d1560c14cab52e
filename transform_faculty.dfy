/**
 * scripts/transformFaculty.js: the projection of the raw directory export (`rawData.data`) onto
 * the faculty records the import reads. A record field that is `undefined` is `None`; such a
 * field is left out of the JSON object, as `JSON.stringify` leaves it out of the file.
 */
module TransformFaculty {
  import opened Wrappers
  import opened Json

  /** One element of `rawData.data`: its `id` (possibly missing) and its `attributes` object. */
  datatype RawItem = RawItem(id: Option<Value>, attributes: map<string, Value>)

  /** One output record, field by field. */
  datatype FacultyRecord = FacultyRecord(
    id: Option<Value>,
    name: Option<Value>,
    employeeId: Option<Value>,
    designation: Option<Value>,
    department: Option<Value>,
    subDepartment: Option<Value>,
    email: Option<Value>,
    phone: Option<Value>,
    office: Option<Value>,
    photo: Value,
    researchArea: Option<Value>,
    googleScholar: Option<Value>,
    scopus: Option<Value>,
    vidwan: Option<Value>,
    linkedin: Option<Value>,
    patents: Value,
    projects: Value,
    awards: Value)

  /** `a.key`, `undefined` for a missing attribute. */
  function Attr(a: map<string, Value>, key: string): (r: Option<Value>)
    ensures r.Some? <==> key in a
    ensures r.Some? ==> r.value == a[key]
  {
    if key in a then Some(a[key]) else None
  }

  /** `a.Photo?.data?.attributes?.url || null` */
  function PhotoOf(a: map<string, Value>): Value {
    OrElse(Path(Some(Obj(a)), ["Photo", "data", "attributes", "url"]), Null)
  }

  /** The record built from one item. */
  function Record(item: RawItem): FacultyRecord {
    var a := item.attributes;
    FacultyRecord(
      item.id,
      Attr(a, "Name"),
      Attr(a, "Employee_Id"),
      Attr(a, "Designation"),
      Attr(a, "Department"),
      Attr(a, "sub_department"),
      Attr(a, "EMAIL"),
      Attr(a, "Contact_No"),
      Attr(a, "Office_Address"),
      PhotoOf(a),
      Attr(a, "Research_area_of_specialization"),
      Attr(a, "Research_google_schloar"),
      Attr(a, "Research_Scopus_Id"),
      Attr(a, "Research_vidwan"),
      Attr(a, "LinkedIn"),
      OrElse(Attr(a, "Patents"), Arr([])),
      OrElse(Attr(a, "Projects"), Arr([])),
      OrElse(Attr(a, "Awards_and_Recognitions"), Arr([])))
  }

  /** `rawData.data.map(...)`: one record per item, in the same order. */
  function Transform(items: seq<RawItem>): (r: seq<FacultyRecord>)
    ensures |r| == |items|
    ensures forall i :: 0 <= i < |items| ==> r[i] == Record(items[i])
  {
    if items == [] then [] else [Record(items[0])] + Transform(items[1..])
  }

  /**
   * `patents`, `projects` and `awards` are the attribute when it is there and truthy, and `[]`
   * otherwise; so each is always a truthy value or the empty list.
   */
  lemma ListFields(item: RawItem)
    ensures var a, r := item.attributes, Record(item);
            && r.patents == (if "Patents" in a && Truthy(a["Patents"]) then a["Patents"] else Arr([]))
            && r.projects == (if "Projects" in a && Truthy(a["Projects"]) then a["Projects"] else Arr([]))
            && r.awards == (if "Awards_and_Recognitions" in a && Truthy(a["Awards_and_Recognitions"])
                            then a["Awards_and_Recognitions"] else Arr([]))
    ensures Truthy(Record(item).patents) || Record(item).patents == Arr([])
  {
  }

  /**
   * `photo` is never `undefined`: it is the nested URL when every step of the chain
   * `Photo.data.attributes.url` is an object holding the next one and the URL is truthy, and
   * `null` otherwise.
   */
  lemma PhotoField(a: map<string, Value>)
    ensures var photo := PhotoOf(a);
            && (photo == Null || Truthy(photo))
            && (Truthy(photo) ==>
                  && "Photo" in a && a["Photo"].Obj?
                  && "data" in a["Photo"].fields && a["Photo"].fields["data"].Obj?
                  && "attributes" in a["Photo"].fields["data"].fields
                  && a["Photo"].fields["data"].fields["attributes"].Obj?
                  && "url" in a["Photo"].fields["data"].fields["attributes"].fields
                  && photo == a["Photo"].fields["data"].fields["attributes"].fields["url"])
  {
    var ks := ["Photo", "data", "attributes", "url"];
    assert ks[1..] == ["data", "attributes", "url"];
    assert ks[1..][1..] == ["attributes", "url"];
    assert ks[1..][1..][1..] == ["url"];
    assert ks[1..][1..][1..][1..] == [];
  }

  /** The object written to the file for a record; `undefined` fields are not written. */
  function ToJson(r: FacultyRecord): map<string, Value> {
    var m: map<string, Value> := map[
      "photo" := r.photo, "patents" := r.patents, "projects" := r.projects, "awards" := r.awards];
    var m := Put(m, "name", r.name);
    var m := Put(m, "employeeId", r.employeeId);
    var m := Put(m, "designation", r.designation);
    var m := Put(m, "department", r.department);
    var m := Put(m, "subDepartment", r.subDepartment);
    var m := Put(m, "email", r.email);
    var m := Put(m, "phone", r.phone);
    var m := Put(m, "office", r.office);
    var m := Put(m, "researchArea", r.researchArea);
    var m := Put(m, "googleScholar", r.googleScholar);
    var m := Put(m, "scopus", r.scopus);
    var m := Put(m, "vidwan", r.vidwan);
    var m := Put(m, "linkedin", r.linkedin);
    Put(m, "id", r.id)
  }

  /** A field that is `undefined` is not written. */
  function Put(m: map<string, Value>, key: string, v: Option<Value>): (r: map<string, Value>)
    ensures v.Some? ==> r == m[key := v.value]
    ensures v.None? ==> r == m
  {
    if v.Some? then m[key := v.value] else m
  }

  /** The written object holds `id` exactly when the record has one. */
  lemma ToJsonId(r: FacultyRecord)
    ensures Member(Some(Obj(ToJson(r))), "id") == r.id
  {
  }

  /** `JSON.stringify(faculties)` read back as the list of objects. */
  function ToJsonAll(rs: seq<FacultyRecord>): (r: seq<map<string, Value>>)
    ensures |r| == |rs|
    ensures forall i :: 0 <= i < |rs| ==> r[i] == ToJson(rs[i])
  {
    if rs == [] then [] else [ToJson(rs[0])] + ToJsonAll(rs[1..])
  }
}
