/** The metadata input: the shape check `validateMetadata`, the
    stringification of the accepted values, and the two keys the action adds
    from its environment before the merge (`GitOrigin` and `GitSHA`). */
module MetadataInput {
  import opened Wrappers
  import opened Text
  import opened Description
  import opened DescriptionProperties

  /** A value as `JSON.parse` returns it. Object members are listed in
      JavaScript property order; a number carries its JavaScript string form. */
  datatype Json =
    | JNull
    | JBool(b: bool)
    | JNumber(text: string)
    | JString(s: string)
    | JArray(items: seq<Json>)
    | JObject(members: seq<(string, Json)>)

  /** `typeof value` is 'string', 'number' or 'boolean'. */
  predicate IsScalar(v: Json) {
    v.JString? || v.JNumber? || v.JBool?
  }

  /** `Object.values(obj).every(...)` over the members. */
  function AllScalar(members: seq<(string, Json)>): (ok: bool)
    ensures ok <==> forall i :: 0 <= i < |members| ==> IsScalar(members[i].1)
  {
    if |members| == 0 then true
    else IsScalar(members[0].1) && AllScalar(members[1..])
  }

  /** `validateMetadata`: a non-null object that is not an array, and whose
      every value is a string, a number or a boolean. */
  function ValidateMetadata(obj: Json): (ok: bool)
    ensures ok <==> obj.JObject? && forall i :: 0 <= i < |obj.members| ==> IsScalar(obj.members[i].1)
  {
    match obj
    case JObject(members) => AllScalar(members)
    case _ => false
  }

  /** The empty object passes; null, arrays, bare values and objects with a
      nested object or array value do not. */
  lemma ValidateMetadataCases(key: string, inner: seq<(string, Json)>, items: seq<Json>)
    ensures ValidateMetadata(JObject([]))
    ensures ValidateMetadata(JObject([(key, JString("x")), (key + "2", JNumber("1.5")), (key + "3", JBool(false))]))
    ensures !ValidateMetadata(JNull)
    ensures !ValidateMetadata(JArray(items))
    ensures !ValidateMetadata(JString(key)) && !ValidateMetadata(JNumber(key)) && !ValidateMetadata(JBool(true))
    ensures !ValidateMetadata(JObject([(key, JObject(inner))]))
    ensures !ValidateMetadata(JObject([(key, JArray(items))]))
    ensures !ValidateMetadata(JObject([(key, JNull)]))
  {
  }

  /** `${value}` of an accepted value. */
  function Stringify(v: Json): string
    requires IsScalar(v)
  {
    match v
    case JString(s) => s
    case JNumber(text) => text
    case JBool(b) => if b then "true" else "false"
  }

  /** The members of an accepted object with their values stringified. */
  function ToMetadata(members: seq<(string, Json)>): Metadata
    requires forall i :: 0 <= i < |members| ==> IsScalar(members[i].1)
  {
    seq(|members|, i requires 0 <= i < |members| => (members[i].0, Stringify(members[i].1)))
  }

  /** `metadata[key]`, or `None` for `undefined`. */
  function ValueOf(md: Metadata, key: string): (r: Option<string>)
    ensures r.Some? ==> (key, r.value) in md
    ensures r.None? <==> forall i :: 0 <= i < |md| ==> md[i].0 != key
  {
    if |md| == 0 then None
    else if md[0].0 == key then Some(md[0].1)
    else ValueOf(md[1..], key)
  }

  /** `metadata[key] = value` on an object: an existing key keeps its place
      (and every other entry keeps its own); a new key is added at the end. */
  function Assign(md: Metadata, key: string, value: string): (r: Metadata)
    ensures |md| <= |r| <= |md| + 1
    ensures forall i :: 0 <= i < |md| ==> r[i].0 == md[i].0
    ensures |r| == |md| + 1 ==> r[|md|] == (key, value)
    decreases |md|
  {
    if |md| == 0 then [(key, value)]
    else if md[0].0 == key then [(key, value)] + md[1..]
    else [md[0]] + Assign(md[1..], key, value)
  }

  /** After the assignment the key reads back the new value and every other
      key reads what it read before. */
  lemma {:induction false} AssignReads(md: Metadata, key: string, value: string, k: string)
    ensures ValueOf(Assign(md, key, value), k) == (if k == key then Some(value) else ValueOf(md, k))
    decreases |md|
  {
    var r := Assign(md, key, value);
    if |md| > 0 && md[0].0 == key {
      assert r[1..] == md[1..];
    } else if |md| > 0 {
      AssignReads(md[1..], key, value, k);
      assert r[1..] == Assign(md[1..], key, value);
    }
  }

  /** The object grows exactly when the key was not there before. */
  lemma {:induction false} AssignGrowsIffNew(md: Metadata, key: string, value: string)
    ensures |Assign(md, key, value)| == |md| + 1 <==> ValueOf(md, key).None?
    decreases |md|
  {
    if |md| > 0 && md[0].0 != key {
      AssignGrowsIffNew(md[1..], key, value);
      assert ValueOf(md, key) == ValueOf(md[1..], key);
    }
  }

  /** Assignment keeps an object's keys distinct. */
  lemma AssignKeepsKeysDistinct(md: Metadata, key: string, value: string)
    requires DistinctKeys(md)
    ensures DistinctKeys(Assign(md, key, value))
  {
    var r := Assign(md, key, value);
    AssignGrowsIffNew(md, key, value);
    forall i, j | 0 <= i < j < |r|
      ensures r[i].0 != r[j].0
    {
      if j == |md| {
        assert md[i].0 != key;
      }
    }
  }

  /** `${x}` of an environment variable, which reads `undefined` when unset. */
  function EnvText(v: Option<string>): string {
    match v
    case Some(s) => s
    case None => "undefined"
  }

  /** `${GITHUB_SERVER_URL}/${GITHUB_REPOSITORY}`. */
  function Origin(serverUrl: Option<string>, repository: Option<string>): string {
    EnvText(serverUrl) + "/" + EnvText(repository)
  }

  datatype ConfigError = InvalidMetadata

  /** The start of the top-level script of `index.js`, after `JSON.parse`:
      check the metadata, then set `GitOrigin` to `<server URL>/<repository>`
      and `GitSHA` to the commit. */
  function PrepareMetadata(input: Json, serverUrl: Option<string>, repository: Option<string>,
                           sha: Option<string>): (r: Result<Metadata, ConfigError>)
    ensures r.Success? <==> ValidateMetadata(input)
    ensures r.Failure? ==> r.error == InvalidMetadata
    ensures r.Success? ==> ValueOf(r.value, "GitSHA") == Some(EnvText(sha))
    ensures r.Success? ==> ValueOf(r.value, "GitOrigin") == Some(Origin(serverUrl, repository))
  {
    if !ValidateMetadata(input) then Failure(InvalidMetadata)
    else
      var md := ToMetadata(input.members);
      var withOrigin := Assign(md, "GitOrigin", Origin(serverUrl, repository));
      AssignReads(md, "GitOrigin", Origin(serverUrl, repository), "GitOrigin");
      AssignReads(withOrigin, "GitSHA", EnvText(sha), "GitSHA");
      AssignReads(withOrigin, "GitSHA", EnvText(sha), "GitOrigin");
      Success(Assign(withOrigin, "GitSHA", EnvText(sha)))
  }

  /** Every other key of the input keeps its stringified value. */
  lemma PrepareMetadataKeepsInput(input: Json, serverUrl: Option<string>, repository: Option<string>,
                                  sha: Option<string>, key: string)
    requires ValidateMetadata(input)
    requires key != "GitSHA" && key != "GitOrigin"
    ensures ValueOf(PrepareMetadata(input, serverUrl, repository, sha).value, key) ==
              ValueOf(ToMetadata(input.members), key)
  {
    var md := ToMetadata(input.members);
    var withOrigin := Assign(md, "GitOrigin", Origin(serverUrl, repository));
    AssignReads(md, "GitOrigin", Origin(serverUrl, repository), key);
    AssignReads(withOrigin, "GitSHA", EnvText(sha), key);
  }

  /** Member names of an object are distinct. */
  predicate DistinctMembers(members: seq<(string, Json)>) {
    forall i, j :: 0 <= i < j < |members| ==> members[i].0 != members[j].0
  }

  /** The prepared metadata has distinct keys and holds the commit and the
      origin entries. */
  lemma PreparedEntries(input: Json, serverUrl: Option<string>, repository: Option<string>,
                        sha: Option<string>)
    requires ValidateMetadata(input) && DistinctMembers(input.members)
    ensures var md := PrepareMetadata(input, serverUrl, repository, sha).value;
            && DistinctKeys(md)
            && ("GitSHA", EnvText(sha)) in md
            && ("GitOrigin", Origin(serverUrl, repository)) in md
  {
    var base := ToMetadata(input.members);
    assert DistinctKeys(base);
    AssignKeepsKeysDistinct(base, "GitOrigin", Origin(serverUrl, repository));
    AssignKeepsKeysDistinct(Assign(base, "GitOrigin", Origin(serverUrl, repository)), "GitSHA", EnvText(sha));
  }

  /** Whatever DESCRIPTION the merge rewrites with prepared metadata records
      the commit and the origin as `name: value` lines. */
  lemma MergedDescriptionRecordsRevision(input: Json, serverUrl: Option<string>,
                                         repository: Option<string>, sha: Option<string>,
                                         fields: seq<string>)
    requires ValidateMetadata(input) && DistinctMembers(input.members)
    requires Rebuild(fields, PrepareMetadata(input, serverUrl, repository, sha).value).Success?
    ensures var out := Rebuild(fields, PrepareMetadata(input, serverUrl, repository, sha).value).value;
            && (exists l :: l in out && RecordsEntry(l, "GitSHA", EnvText(sha)))
            && (exists l :: l in out && RecordsEntry(l, "GitOrigin", Origin(serverUrl, repository)))
  {
    var md := PrepareMetadata(input, serverUrl, repository, sha).value;
    PreparedEntries(input, serverUrl, repository, sha);
    EveryEntryRecorded(fields, md);
    var i :| 0 <= i < |md| && md[i] == ("GitSHA", EnvText(sha));
    var j :| 0 <= j < |md| && md[j] == ("GitOrigin", Origin(serverUrl, repository));
  }
}
