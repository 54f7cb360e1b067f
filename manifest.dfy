/** src/manifest.rs: the shape a manifest JSON file must have (the serde
    derived decoding of `AppManifest`, with the untagged `License` and `Notes`
    enums) and the two `Display` impls that flatten `License` and `Notes`. */
module Manifest {
  import opened Strings
  import opened Json

  /** `#[serde(untagged)] enum License { String(String), Object { identifier: String } }` */
  datatype License = LicenseString(s: string) | LicenseObject(identifier: string)

  /** `#[serde(untagged)] enum Notes { String(String), Array(Vec<String>) }` */
  datatype Notes = NotesString(s: string) | NotesArray(items: seq<string>)

  datatype AppManifest = AppManifest(
    version: string,
    description: string,
    homepage: string,
    license: License,
    notes: Option<Notes>)

  // ---------------------------------------------------------------------
  // Decoding (None is a serde error)

  function DecodeString(v: Value): Option<string> {
    if v.Str? then Some(v.s) else None
  }

  /** `Vec<String>`: every element must be a string. */
  function DecodeStrings(vs: seq<Value>): (r: Option<seq<string>>)
    ensures r.Some? <==> forall i :: 0 <= i < |vs| ==> vs[i].Str?
    ensures r.Some? ==> |r.value| == |vs| && forall i :: 0 <= i < |vs| ==> r.value[i] == vs[i].s
  {
    if |vs| == 0 then Some([])
    else if !vs[0].Str? then None
    else match DecodeStrings(vs[1..])
      case None => None
      case Some(rest) => Some([vs[0].s] + rest)
  }

  /** The untagged `License`: the `String` variant is tried first, then the
      `Object` variant, which needs a string `identifier` and ignores every other
      key. A struct variant of an untagged enum is not decoded from an array. */
  function DecodeLicense(v: Value): Option<License> {
    match v
    case Str(s) => Some(LicenseString(s))
    case Object(fields) =>
      if "identifier" in fields && fields["identifier"].Str?
      then Some(LicenseObject(fields["identifier"].s))
      else None
    case _ => None
  }

  /** The untagged `Notes`: a string, or an array all of whose elements are strings. */
  function DecodeNotes(v: Value): Option<Notes> {
    match v
    case Str(s) => Some(NotesString(s))
    case Array(items) =>
      (match DecodeStrings(items)
       case Some(ss) => Some(NotesArray(ss))
       case None => None)
    case _ => None
  }

  /** `Option<Notes>`: `null` decodes to `None`. The outer `None` is an error. */
  function DecodeOptionalNotes(v: Value): Option<Option<Notes>> {
    if v.Null? then Some(None)
    else match DecodeNotes(v)
      case Some(n) => Some(Some(n))
      case None => None
  }

  /** A missing `notes` key is `None`, as serde does for an `Option` field. */
  function NotesField(fields: map<string, Value>): Option<Option<Notes>> {
    if "notes" in fields then DecodeOptionalNotes(fields["notes"]) else Some(None)
  }

  function Assemble(version: Option<string>, description: Option<string>, homepage: Option<string>,
                    license: Option<License>, notes: Option<Option<Notes>>): Option<AppManifest>
  {
    if version.Some? && description.Some? && homepage.Some? && license.Some? && notes.Some?
    then Some(AppManifest(version.value, description.value, homepage.value, license.value, notes.value))
    else None
  }

  function DecodeField<T>(fields: map<string, Value>, key: string, decode: Value -> Option<T>): Option<T> {
    if key in fields then decode(fields[key]) else None
  }

  /** `serde_json::from_slice::<AppManifest>` on an already-parsed value. The
      derived decoding of a struct accepts an object (unknown keys ignored, the four
      non-optional fields required) and also the positional form, an array of
      exactly five elements in declaration order. */
  function DecodeManifest(v: Value): Option<AppManifest> {
    match v
    case Object(fields) =>
      Assemble(DecodeField(fields, "version", DecodeString),
               DecodeField(fields, "description", DecodeString),
               DecodeField(fields, "homepage", DecodeString),
               DecodeField(fields, "license", DecodeLicense),
               NotesField(fields))
    case Array(xs) =>
      if |xs| != 5 then None
      else Assemble(DecodeString(xs[0]), DecodeString(xs[1]), DecodeString(xs[2]),
                    DecodeLicense(xs[3]), DecodeOptionalNotes(xs[4]))
    case _ => None
  }

  // ---------------------------------------------------------------------
  // Display

  /** `impl Display for License` */
  function LicenseText(l: License): string {
    match l
    case LicenseString(s) => s
    case LicenseObject(s) => s
  }

  /** `impl Display for Notes`: an array is joined with the empty separator. */
  function NotesText(n: Notes): string {
    match n
    case NotesString(s) => s
    case NotesArray(v) => Join(v, "")
  }

  // ---------------------------------------------------------------------
  // Encoding: one JSON value for each decoded shape

  function EncodeLicense(l: License): Value {
    match l
    case LicenseString(s) => Str(s)
    case LicenseObject(s) => Object(map["identifier" := Str(s)])
  }

  function EncodeStrings(v: seq<string>): (r: seq<Value>)
    ensures |r| == |v| && forall i :: 0 <= i < |v| ==> r[i] == Str(v[i])
  {
    seq(|v|, i requires 0 <= i < |v| => Str(v[i]))
  }

  function EncodeNotes(n: Notes): Value {
    match n
    case NotesString(s) => Str(s)
    case NotesArray(v) => Array(EncodeStrings(v))
  }

  function EncodeManifest(m: AppManifest): Value {
    var required := map[
      "version" := Str(m.version),
      "description" := Str(m.description),
      "homepage" := Str(m.homepage),
      "license" := EncodeLicense(m.license)];
    Object(if m.notes.Some? then required["notes" := EncodeNotes(m.notes.value)] else required)
  }

  // ---------------------------------------------------------------------
  // Properties

  /** Both license shapes decode, and both display as the string they carry:
      `"MIT"` and `{"identifier": "MIT"}` flatten to the same text. */
  lemma LicenseShapesAgree(s: string, extra: map<string, Value>)
    ensures DecodeLicense(Str(s)).Some? && LicenseText(DecodeLicense(Str(s)).value) == s
    ensures var o := DecodeLicense(Object(extra["identifier" := Str(s)]));
      o.Some? && LicenseText(o.value) == s
  {
  }

  /** The license decodes exactly from a string or from an object whose
      `identifier` is a string. */
  lemma LicenseAcceptedShapes(v: Value)
    ensures DecodeLicense(v).Some? <==>
      (v.Str? || (v.Object? && "identifier" in v.fields && v.fields["identifier"].Str?))
  {
  }

  /** Notes decode exactly from a string or from an array of strings; one
      non-string element makes the whole array fail. */
  lemma NotesAcceptedShapes(v: Value)
    ensures DecodeNotes(v).Some? <==>
      (v.Str? || (v.Array? && forall i :: 0 <= i < |v.items| ==> v.items[i].Str?))
  {
  }

  /** The display of an array of notes is the in-order concatenation of its
      elements: its length is the sum of theirs, `[]` shows as `""` and `[x]`
      shows like the string `x`. */
  lemma {:induction false} NotesArrayDisplay(v: seq<string>)
    ensures NotesText(NotesArray(v)) == Concat(v)
    ensures |NotesText(NotesArray(v))| == SumLengths(v)
    ensures v == [] ==> NotesText(NotesArray(v)) == ""
    ensures |v| == 1 ==> NotesText(NotesArray(v)) == NotesText(NotesString(v[0]))
  {
    JoinEmptySeparator(v);
    ConcatLength(v);
  }

  lemma {:induction false} StringsRoundTrip(v: seq<string>)
    ensures DecodeStrings(EncodeStrings(v)) == Some(v)
  {
    if |v| > 0 {
      assert EncodeStrings(v)[1..] == EncodeStrings(v[1..]);
      StringsRoundTrip(v[1..]);
      assert [v[0]] + v[1..] == v;
    }
  }

  lemma LicenseRoundTrip(l: License)
    ensures DecodeLicense(EncodeLicense(l)) == Some(l)
  {
  }

  lemma NotesRoundTrip(n: Notes)
    ensures DecodeNotes(EncodeNotes(n)) == Some(n)
  {
    if n.NotesArray? {
      StringsRoundTrip(n.items);
    }
  }

  /** Every manifest is decoded back from its object encoding; in particular a
      manifest without notes (no `notes` key) decodes with `notes == None`. */
  lemma ManifestRoundTrip(m: AppManifest)
    ensures DecodeManifest(EncodeManifest(m)) == Some(m)
  {
    LicenseRoundTrip(m.license);
    if m.notes.Some? {
      NotesRoundTrip(m.notes.value);
      assert !EncodeNotes(m.notes.value).Null?;
    }
  }

  /** An object decodes iff its four required fields have the right shape and
      `notes` is absent, `null`, or a valid `Notes`. */
  lemma ManifestObjectFields(fields: map<string, Value>)
    ensures DecodeManifest(Object(fields)).Some? <==>
      && "version" in fields && fields["version"].Str?
      && "description" in fields && fields["description"].Str?
      && "homepage" in fields && fields["homepage"].Str?
      && "license" in fields && DecodeLicense(fields["license"]).Some?
      && ("notes" in fields ==> fields["notes"].Null? || DecodeNotes(fields["notes"]).Some?)
    ensures DecodeManifest(Object(fields)).Some? ==>
      var m := DecodeManifest(Object(fields)).value;
      && m.version == fields["version"].s
      && m.description == fields["description"].s
      && m.homepage == fields["homepage"].s
      && (m.notes.None? <==> "notes" !in fields || fields["notes"].Null?)
  {
  }
}
