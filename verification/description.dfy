/** The DESCRIPTION-file merge of `updateDescriptionFile`: the text is split
    into physical lines, the lines are grouped into fields, and the fields are
    rebuilt with the metadata laid over them. Reading and writing the file are
    not modelled: the merge maps the old content to the new content. */
module Description {
  import opened Wrappers
  import opened Text

  /** The metadata object after stringification: its keys with their textual
      values, in the object's property order. */
  type Metadata = seq<(string, string)>

  /** Where the merge throws: the name pattern finds no match in a field that
      begins with a colon, and indexing the `null` match fails. The payload
      records the field the merge stopped at; the text of the JavaScript
      error is not modelled. */
  datatype MergeError = UnnamedField(field: string)

  // ---------------------------------------------------------------------
  // Grouping lines into fields
  // ---------------------------------------------------------------------

  /** The pending field is pushed only when it is non-empty (`if (currentField)`). */
  function Flush(current: string): (pushed: seq<string>)
    ensures forall i :: 0 <= i < |pushed| ==> pushed[i] != ""
    ensures Concat(pushed) == current
  {
    if current == "" then [] else [current]
  }

  /** The fields that the grouping loop pushes when it meets `lines` while
      `current` is the field being accumulated. A line that starts with
      whitespace is glued onto `current`; any other line closes `current`
      and opens a new field. */
  function GroupFrom(lines: seq<string>, current: string): (fields: seq<string>)
    ensures forall i :: 0 <= i < |fields| ==> fields[i] != ""
    ensures IsLine(current) && (forall i :: 0 <= i < |lines| ==> IsLine(lines[i])) ==>
              forall i :: 0 <= i < |fields| ==> IsLine(fields[i])
    decreases |lines|
  {
    if |lines| == 0 then Flush(current)
    else if StartsWithSpace(lines[0]) then GroupFrom(lines[1..], current + lines[0])
    else Flush(current) + GroupFrom(lines[1..], lines[0])
  }

  /** The field list of the grouping loop of `updateDescriptionFile`, which starts
      from an empty field. */
  function Group(lines: seq<string>): seq<string> {
    GroupFrom(lines, "")
  }

  /** The fields of a DESCRIPTION text. */
  function Fields(text: string): (fields: seq<string>)
    ensures forall i :: 0 <= i < |fields| ==> fields[i] != "" && IsLine(fields[i])
  {
    Group(Split(text))
  }

  // ---------------------------------------------------------------------
  // Field names and metadata keys
  // ---------------------------------------------------------------------

  /** Length of the longest colon-free prefix. */
  function NameLength(s: string): (n: nat)
    ensures n <= |s|
    ensures ':' !in s[..n]
    ensures n == |s| || s[n] == ':'
  {
    if |s| == 0 || s[0] == ':' then 0 else 1 + NameLength(s[1..])
  }

  /** `field.match(/^([^:]+)/)[0]`: the non-empty text before the first colon,
      or `None` where the regular expression does not match. */
  function FieldName(field: string): (name: Option<string>)
    ensures name.None? <==> field == "" || field[0] == ':'
    ensures name.Some? ==> name.value != "" && ':' !in name.value
    ensures name.Some? ==> name.value == field || name.value + ":" <= field
  {
    var n := NameLength(field);
    if n == 0 then None
    else
      assert n < |field| ==> field[..n] + ":" == field[..n + 1];
      Some(field[..n])
  }

  /** The position of the first metadata key equal to the field name
      ignoring letter case, if any. */
  function FindKey(md: Metadata, name: string): (r: Option<nat>)
    ensures r.Some? ==> r.value < |md| && SameIgnoringCase(md[r.value].0, name)
    ensures r.Some? ==> forall j :: 0 <= j < r.value ==> !SameIgnoringCase(md[j].0, name)
    ensures r.None? <==> forall j :: 0 <= j < |md| ==> !SameIgnoringCase(md[j].0, name)
  {
    if |md| == 0 then None
    else if SameIgnoringCase(md[0].0, name) then Some(0)
    else
      match FindKey(md[1..], name)
      case None => None
      case Some(j) => Some(j + 1)
  }

  /** The `remotes` field, in any letter case. */
  predicate IsRemotes(name: string) {
    Lower(name) == "remotes"
  }

  /** What the rebuild loop does with a field of the given name. */
  datatype Disposition =
    | Dropped                  // a `remotes` field: skipped
    | Overridden(index: nat)   // rewritten with the value of metadata entry `index`
    | Kept                     // copied unchanged

  function Dispose(name: string, md: Metadata): (d: Disposition)
    ensures d.Overridden? ==> d.index < |md|
  {
    if IsRemotes(name) then Dropped
    else
      match FindKey(md, name)
      case Some(i) => Overridden(i)
      case None => Kept
  }

  /** `${key}: ${value}` */
  function EntryLine(key: string, value: string): string {
    key + ": " + value
  }

  /** The output line(s) of one named field, without their line feeds. */
  function EmitField(field: string, name: string, md: Metadata): seq<string> {
    match Dispose(name, md)
    case Dropped => []
    case Overridden(i) => [EntryLine(name, md[i].1)]
    case Kept => [field]
  }

  /** The metadata key a field pushes onto `metadataAdded`, if any. */
  function ConsumedKey(field: string, md: Metadata): Option<string> {
    match FieldName(field)
    case None => None
    case Some(name) =>
      match Dispose(name, md)
      case Overridden(i) => Some(md[i].0)
      case _ => None
  }

  // ---------------------------------------------------------------------
  // Rebuilding the text
  // ---------------------------------------------------------------------

  /** The output lines of the fields, in field order; the first field
      without a name aborts the whole rebuild. */
  function FieldLines(fields: seq<string>, md: Metadata): (r: Result<seq<string>, MergeError>)
    ensures r.Success? ==> |r.value| <= |fields|
    ensures r.Failure? ==> FieldName(r.error.field).None?
  {
    if |fields| == 0 then Success([])
    else
      match FieldName(fields[0])
      case None => Failure(UnnamedField(fields[0]))
      case Some(name) =>
        match FieldLines(fields[1..], md)
        case Failure(e) => Failure(e)
        case Success(rest) => Success(EmitField(fields[0], name, md) + rest)
  }

  /** The keys that some field consumed. */
  function Consumed(fields: seq<string>, md: Metadata): (keys: set<string>)
    ensures forall k :: k in keys <==>
              exists j :: 0 <= j < |fields| && ConsumedKey(fields[j], md) == Some(k)
  {
    if |fields| == 0 then {}
    else
      var rest := Consumed(fields[1..], md);
      assert forall j :: 1 <= j < |fields| ==> fields[j] == fields[1..][j - 1];
      match ConsumedKey(fields[0], md)
      case None => rest
      case Some(k) => {k} + rest
  }

  /** The `key: value` lines of the metadata entries whose key is not in
      `consumed`, in metadata order. */
  function Leftover(md: Metadata, consumed: set<string>): (lines: seq<string>)
    ensures |lines| <= |md|
    ensures forall i :: 0 <= i < |md| && md[i].0 !in consumed ==>
              EntryLine(md[i].0, md[i].1) in lines
    ensures forall l :: l in lines ==>
              exists i :: 0 <= i < |md| && md[i].0 !in consumed && l == EntryLine(md[i].0, md[i].1)
  {
    if |md| == 0 then []
    else
      var rest := Leftover(md[1..], consumed);
      assert forall i :: 1 <= i < |md| ==> md[i] == md[1..][i - 1];
      if md[0].0 in consumed then rest
      else [EntryLine(md[0].0, md[0].1)] + rest
  }

  /** The output lines of the whole merge: the fields' lines, then the
      unconsumed metadata. */
  function Rebuild(fields: seq<string>, md: Metadata): (r: Result<seq<string>, MergeError>)
    ensures r.Success? ==> |r.value| <= |fields| + |md|
    ensures r.Failure? ==> r.error.field in fields && FieldName(r.error.field).None?
  {
    match FieldLines(fields, md)
    case Failure(e) => UnnamedFieldListed(fields, md); Failure(e)
    case Success(lines) => Success(lines + Leftover(md, Consumed(fields, md)))
  }

  /** The field a failed rebuild stops at is one of the fields. */
  lemma {:induction false} UnnamedFieldListed(fields: seq<string>, md: Metadata)
    requires FieldLines(fields, md).Failure?
    ensures FieldLines(fields, md).error.field in fields
    decreases |fields|
  {
    if FieldName(fields[0]).Some? {
      UnnamedFieldListed(fields[1..], md);
      assert FieldLines(fields, md).error == FieldLines(fields[1..], md).error;
    }
  }

  /** The new DESCRIPTION content (`updateDescriptionFile` without the file read and write). */
  function Merge(text: string, md: Metadata): (r: Result<string, MergeError>)
    ensures r.Success? ==> r.value == "" || r.value[|r.value| - 1] == '\n'
    ensures r.Failure? ==> r.error.field in Fields(text) && r.error.field[0] == ':'
  {
    match Rebuild(Fields(text), md)
    case Failure(e) => Failure(e)
    case Success(lines) => TerminatedEndsWithLineFeed(lines); Success(Terminated(lines))
  }

  // ---------------------------------------------------------------------
  // The loops of `updateDescriptionFile`
  // ---------------------------------------------------------------------

  /** Adds already emitted lines in front of the lines still to come. */
  function Prepend(emitted: seq<string>, rest: Result<seq<string>, MergeError>): Result<seq<string>, MergeError> {
    match rest
    case Failure(e) => Failure(e)
    case Success(lines) => Success(emitted + lines)
  }

  lemma PrependEmpty(rest: Result<seq<string>, MergeError>)
    ensures Prepend([], rest) == rest
  {
    if rest.Success? {
      assert [] + rest.value == rest.value;
    }
  }

  /** One more field of the rebuild loop: its lines move from the lines
      still to come to the lines already emitted. */
  lemma PrependStep(emitted: seq<string>, fields: seq<string>, md: Metadata, j: nat, name: string)
    requires j < |fields| && FieldName(fields[j]) == Some(name)
    ensures Prepend(emitted, FieldLines(fields[j..], md)) ==
              Prepend(emitted + EmitField(fields[j], name, md), FieldLines(fields[j + 1..], md))
  {
    assert fields[j..][1..] == fields[j + 1..];
    var rest := FieldLines(fields[j + 1..], md);
    if rest.Success? {
      var out := EmitField(fields[j], name, md);
      assert emitted + (out + rest.value) == emitted + out + rest.value;
    }
  }

  /** One more entry of the final loop. */
  lemma LeftoverStep(md: Metadata, consumed: set<string>, m: nat)
    requires m < |md|
    ensures Leftover(md[m..], consumed) ==
              (if md[m].0 in consumed then [] else [EntryLine(md[m].0, md[m].1)])
              + Leftover(md[m + 1..], consumed)
  {
    assert md[m..][1..] == md[m + 1..];
  }

  /** One more line of the grouping loop. */
  lemma GroupStep(lines: seq<string>, i: nat, current: string)
    requires i < |lines|
    ensures GroupFrom(lines[i..], current) ==
              if StartsWithSpace(lines[i]) then GroupFrom(lines[i + 1..], current + lines[i])
              else Flush(current) + GroupFrom(lines[i + 1..], lines[i])
  {
    assert lines[i..][1..] == lines[i + 1..];
  }

  /** Appending one terminated line to text that ends with `lines`. */
  lemma LineAppended(prefix: string, content: string, lines: seq<string>, line: string)
    requires content == prefix + Terminated(lines)
    ensures content + line + "\n" == prefix + Terminated(lines + [line])
  {
    TerminatedAppend(lines, [line]);
    assert Terminated([line]) == line + "\n" + Terminated([]);
  }

  /** One more entry of the final loop: the appended lines and the text
      grow by the entry's line exactly when its key was not consumed. */
  lemma AppendStep(prefix: string, content: string, appended: seq<string>,
                   md: Metadata, consumed: set<string>, m: nat)
    requires m < |md|
    requires content == prefix + Terminated(appended)
    requires Leftover(md, consumed) == appended + Leftover(md[m..], consumed)
    ensures md[m].0 !in consumed ==>
              content + EntryLine(md[m].0, md[m].1) + "\n"
                == prefix + Terminated(appended + [EntryLine(md[m].0, md[m].1)])
    ensures Leftover(md, consumed) ==
              appended + (if md[m].0 in consumed then [] else [EntryLine(md[m].0, md[m].1)])
              + Leftover(md[m + 1..], consumed)
  {
    LeftoverStep(md, consumed, m);
    var step := if md[m].0 in consumed then [] else [EntryLine(md[m].0, md[m].1)];
    assert appended + (step + Leftover(md[m + 1..], consumed))
        == appended + step + Leftover(md[m + 1..], consumed);
    if md[m].0 !in consumed {
      LineAppended(prefix, content, appended, EntryLine(md[m].0, md[m].1));
    }
  }

  /** The grouping loop as written, with its running `currentField`. */
  method GroupLines(lines: seq<string>) returns (fields: seq<string>)
    ensures fields == Group(lines)
  {
    fields := [];
    var currentField := "";
    assert lines[0..] == lines;
    assert [] + Group(lines) == Group(lines);
    for i := 0 to |lines|
      invariant fields + GroupFrom(lines[i..], currentField) == Group(lines)
    {
      GroupStep(lines, i, currentField);
      if StartsWithSpace(lines[i]) {
        currentField := currentField + lines[i];
      } else {
        FlushInto(fields, currentField, GroupFrom(lines[i + 1..], lines[i]));
        if currentField != "" {
          fields := fields + [currentField];
        }
        currentField := lines[i];
      }
    }
    assert GroupFrom(lines[|lines|..], currentField) == Flush(currentField) + [] by {
      assert lines[|lines|..] == [];
    }
    FlushInto(fields, currentField, []);
    if currentField != "" {
      fields := fields + [currentField];
    }
    assert fields + [] == fields;
  }

  /** Pushing the pending field, when it is non-empty, onto the fields found so far. */
  lemma FlushInto(fields: seq<string>, current: string, rest: seq<string>)
    ensures fields + (Flush(current) + rest) == (if current != "" then fields + [current] else fields) + rest
  {
    if current == "" {
      assert Flush(current) + rest == rest;
    }
  }

  /** The rebuild loop as written: it appends to `updatedContent` and records
      each consumed key in `metadataAdded`, and throws at a field without a name. */
  method RebuildFields(fields: seq<string>, metadata: Metadata)
    returns (r: Result<(string, seq<string>), MergeError>)
    ensures FieldLines(fields, metadata).Failure? ==> r == Failure(FieldLines(fields, metadata).error)
    ensures FieldLines(fields, metadata).Success? ==>
              && r.Success?
              && r.value.0 == Terminated(FieldLines(fields, metadata).value)
              && forall k :: k in r.value.1 <==> k in Consumed(fields, metadata)
  {
    var updatedContent := "";
    var metadataAdded: seq<string> := [];
    ghost var emitted: seq<string> := [];
    assert fields[0..] == fields;
    PrependEmpty(FieldLines(fields, metadata));
    for j := 0 to |fields|
      invariant updatedContent == Terminated(emitted)
      invariant FieldLines(fields, metadata) == Prepend(emitted, FieldLines(fields[j..], metadata))
      invariant forall k :: k in Consumed(fields, metadata) <==>
                  k in metadataAdded || k in Consumed(fields[j..], metadata)
    {
      assert fields[j..][1..] == fields[j + 1..];
      var fieldName := FieldName(fields[j]);
      if fieldName.None? {
        assert FieldLines(fields[j..], metadata) == Failure(UnnamedField(fields[j]));
        return Failure(UnnamedField(fields[j]));
      }
      var name := fieldName.value;
      PrependStep(emitted, fields, metadata, j, name);
      if IsRemotes(name) {
        assert emitted + EmitField(fields[j], name, metadata) == emitted;
      } else {
        var key := FindKey(metadata, name);
        if key.Some? {
          var line := EntryLine(name, metadata[key.value].1);
          LineAppended("", updatedContent, emitted, line);
          updatedContent := updatedContent + line + "\n";
          metadataAdded := metadataAdded + [metadata[key.value].0];
          emitted := emitted + [line];
        } else {
          LineAppended("", updatedContent, emitted, fields[j]);
          updatedContent := updatedContent + fields[j] + "\n";
          emitted := emitted + [fields[j]];
        }
      }
    }
    assert fields[|fields|..] == [];
    assert emitted + [] == emitted;
    return Success((updatedContent, metadataAdded));
  }

  /** The final loop as written: every entry whose key `metadataAdded` does
      not include is appended as `key: value`. */
  method AppendLeftover(updatedContent: string, metadataAdded: seq<string>, metadata: Metadata)
    returns (content: string)
    ensures content == updatedContent + Terminated(Leftover(metadata, set k | k in metadataAdded))
  {
    ghost var consumed := set k | k in metadataAdded;
    ghost var appended: seq<string> := [];
    content := updatedContent;
    assert metadata[0..] == metadata;
    for m := 0 to |metadata|
      invariant content == updatedContent + Terminated(appended)
      invariant Leftover(metadata, consumed) == appended + Leftover(metadata[m..], consumed)
    {
      AppendStep(updatedContent, content, appended, metadata, consumed, m);
      var (key, value) := metadata[m];
      if key !in metadataAdded {
        assert key !in consumed;
        content := content + EntryLine(key, value) + "\n";
        appended := appended + [EntryLine(key, value)];
      } else {
        assert key in consumed;
        assert appended + [] == appended;
      }
    }
    assert metadata[|metadata|..] == [];
    assert appended + [] == appended;
  }

  /** `updateDescriptionFile` without the file read and write. */
  method UpdateDescription(content: string, metadata: Metadata)
    returns (r: Result<string, MergeError>)
    ensures r == Merge(content, metadata)
  {
    var lines := Split(content);
    var fields := GroupLines(lines);
    var rebuilt := RebuildFields(fields, metadata);
    if rebuilt.Failure? {
      return Failure(rebuilt.error);
    }
    var (updatedContent, metadataAdded) := rebuilt.value;
    assert (set k | k in metadataAdded) == Consumed(fields, metadata);
    var result := AppendLeftover(updatedContent, metadataAdded, metadata);
    TerminatedAppend(FieldLines(fields, metadata).value, Leftover(metadata, Consumed(fields, metadata)));
    return Success(result);
  }
}
