/** What the merge leaves alone and when running it a second time changes
    nothing. Neither is promised by the code in general: multi-line fields
    are folded onto one line, and a metadata `Remotes` key whose line is
    not last, or two keys that differ only in letter case, can make a
    second run differ from the first. */
module DescriptionRerun {
  import opened Wrappers
  import opened Text
  import opened Description
  import opened DescriptionProperties

  // ---------------------------------------------------------------------
  // Field names of rebuilt lines
  // ---------------------------------------------------------------------

  lemma {:induction false} NameLengthBeforeColon(name: string, rest: string)
    requires ':' !in name
    ensures NameLength(name + ":" + rest) == |name|
    decreases |name|
  {
    if |name| > 0 {
      assert (name + ":" + rest)[1..] == name[1..] + ":" + rest;
      NameLengthBeforeColon(name[1..], rest);
    }
  }

  /** The name of `name: value` is `name` again, when `name` is a possible
      field name. */
  lemma NameOfEntryLine(name: string, value: string)
    requires name != "" && ':' !in name
    ensures FieldName(EntryLine(name, value)) == Some(name)
  {
    assert EntryLine(name, value) == name + ":" + (" " + value);
    NameLengthBeforeColon(name, " " + value);
    assert EntryLine(name, value)[..|name|] == name;
  }

  /** Text glued after the first colon does not change a field's name. */
  lemma NameOfExtendedField(head: string, tail: string)
    requires FieldName(head).Some? && FieldName(head).value != head
    ensures FieldName(head + tail) == FieldName(head)
  {
    var name := FieldName(head).value;
    assert head == name + ":" + head[|name| + 1..];
    NameLengthBeforeColon(name, head[|name| + 1..] + tail);
    assert head + tail == name + ":" + (head[|name| + 1..] + tail);
    assert (head + tail)[..|name|] == name;
  }

  // ---------------------------------------------------------------------
  // Fields the merge leaves alone
  // ---------------------------------------------------------------------

  /** A one-line field that the merge copies: named, not `remotes`, and
      matching no metadata key. */
  predicate Untouched(line: string, md: Metadata) {
    && SingleLineField(line)
    && IsLine(line)
    && FieldName(line).Some?
    && Dispose(FieldName(line).value, md) == Kept
  }

  lemma {:induction false} UntouchedLinesKept(lines: seq<string>, md: Metadata)
    requires forall i :: 0 <= i < |lines| ==> Untouched(lines[i], md)
    ensures FieldLines(lines, md) == Success(lines)
    ensures Consumed(lines, md) == {}
    decreases |lines|
  {
    if |lines| > 0 {
      var rest := lines[1..];
      assert forall i :: 0 <= i < |rest| ==> rest[i] == lines[i + 1];
      UntouchedLinesKept(rest, md);
      var name := FieldName(lines[0]).value;
      assert EmitField(lines[0], name, md) == [lines[0]];
      assert ConsumedKey(lines[0], md) == None;
      assert [lines[0]] + rest == lines;
    }
  }

  /** A text whose lines are all untouched one-line fields comes back
      unchanged, followed by every metadata entry in metadata order. */
  lemma UntouchedTextKept(lines: seq<string>, md: Metadata)
    requires forall i :: 0 <= i < |lines| ==> Untouched(lines[i], md)
    ensures Merge(Terminated(lines), md) == Success(Terminated(lines) + Terminated(Leftover(md, {})))
    ensures |Leftover(md, {})| == |md|
  {
    SplitTerminated(lines);
    GroupSingleLines(lines);
    UntouchedLinesKept(lines, md);
    TerminatedAppend(lines, Leftover(md, {}));
    LeftoverAll(md);
  }

  lemma {:induction false} LeftoverAll(md: Metadata)
    ensures |Leftover(md, {})| == |md|
    ensures forall i :: 0 <= i < |md| ==> Leftover(md, {})[i] == EntryLine(md[i].0, md[i].1)
    decreases |md|
  {
    if |md| > 0 {
      LeftoverAll(md[1..]);
    }
  }

  /** With no metadata, a text of named one-line fields other than `remotes`
      is reproduced exactly. */
  lemma NoMetadataNoChange(lines: seq<string>)
    requires forall i :: 0 <= i < |lines| ==>
               && SingleLineField(lines[i]) && IsLine(lines[i])
               && FieldName(lines[i]).Some? && !IsRemotes(FieldName(lines[i]).value)
    ensures Merge(Terminated(lines), []) == Success(Terminated(lines))
  {
    UntouchedTextKept(lines, []);
    assert Terminated(lines) + "" == Terminated(lines);
  }

  /** A head line followed by continuation lines is read as one field. */
  lemma BlockFields(head: string, conts: seq<string>)
    requires SingleLineField(head) && IsLine(head)
    requires AllContinuations(conts)
    requires forall i :: 0 <= i < |conts| ==> IsLine(conts[i])
    ensures Fields(Terminated([head] + conts)) == [head + Concat(conts)]
  {
    var lines := [head] + conts;
    var field := head + Concat(conts);
    assert Split(Terminated(lines)) == [head] + conts + [""] by {
      forall i | 0 <= i < |lines|
        ensures IsLine(lines[i])
      {
        if i > 0 {
          assert lines[i] == conts[i - 1];
        }
      }
      SplitTerminated(lines);
    }
    assert Group([head] + conts + [""]) == Flush(field) + Group([""]) by {
      assert OpensField([""]);
      GroupBlock(head, conts, [""]);
    }
    assert Group([""]) == [] by {
      assert GroupFrom([""], "") == Flush("") + GroupFrom([], "");
    }
    assert Flush(field) == [field] by {
      assert |field| >= |head| > 0;
    }
    assert [field] + [] == [field];
  }

  /** A lone kept field is copied and consumes no key. */
  lemma KeptFieldAlone(field: string, md: Metadata)
    requires FieldName(field).Some? && Dispose(FieldName(field).value, md) == Kept
    ensures FieldLines([field], md) == Success([field])
    ensures Consumed([field], md) == {}
  {
    assert [field][1..] == [];
    assert [field] + [] == [field];
  }

  /** A field written over several lines is emitted on ONE line: its
      continuation lines are kept, but the line feeds between them are not. */
  lemma ContinuationsJoined(head: string, conts: seq<string>, md: Metadata)
    requires SingleLineField(head) && IsLine(head)
    requires FieldName(head).Some? && FieldName(head).value != head
    requires Dispose(FieldName(head).value, md) == Kept
    requires AllContinuations(conts)
    requires forall i :: 0 <= i < |conts| ==> IsLine(conts[i])
    ensures Merge(Terminated([head] + conts), md) ==
              Success(head + Concat(conts) + "\n" + Terminated(Leftover(md, {})))
  {
    var field := head + Concat(conts);
    BlockFields(head, conts);
    NameOfExtendedField(head, Concat(conts));
    KeptFieldAlone(field, md);
    TerminatedAppend([field], Leftover(md, {}));
    assert Terminated([field]) == field + "\n" + Terminated([]);
  }

  // ---------------------------------------------------------------------
  // Running the merge twice
  // ---------------------------------------------------------------------

  /** A metadata key that reads back as the same field name. */
  predicate StableKey(key: string) {
    key != "" && ':' !in key && IsLine(key) && !StartsWithSpace(key) && !IsRemotes(key)
  }

  /** Metadata that a second merge reads back as it was written. */
  predicate StableMetadata(md: Metadata) {
    && (forall i :: 0 <= i < |md| ==> StableKey(md[i].0) && IsLine(md[i].1))
    && (forall i, j :: 0 <= i < j < |md| ==> !SameIgnoringCase(md[i].0, md[j].0))
  }

  /** An output line that a second merge groups as one field and emits unchanged. */
  predicate Fixed(line: string, md: Metadata) {
    && SingleLineField(line)
    && IsLine(line)
    && FieldName(line).Some?
    && EmitField(line, FieldName(line).value, md) == [line]
  }

  /** With keys distinct ignoring case, a key finds its own entry. */
  lemma FindOwnKey(md: Metadata, i: nat)
    requires StableMetadata(md) && i < |md|
    ensures FindKey(md, md[i].0) == Some(i)
  {
    assert SameIgnoringCase(md[i].0, md[i].0);
  }

  /** The line of metadata entry `i` consumes key `i` when it is read back. */
  lemma EntryLineFixed(md: Metadata, i: nat, name: string)
    requires StableMetadata(md) && i < |md|
    requires name != "" && ':' !in name && IsLine(name) && !StartsWithSpace(name)
    requires Dispose(name, md) == Overridden(i)
    ensures Fixed(EntryLine(name, md[i].1), md)
    ensures ConsumedKey(EntryLine(name, md[i].1), md) == Some(md[i].0)
  {
    var line := EntryLine(name, md[i].1);
    NameOfEntryLine(name, md[i].1);
    assert line[0] == name[0];
    assert forall c :: c in line ==> c in name || c in md[i].1 || c == ':' || c == ' ';
  }

  /** The lines of metadata entries left over are read back as themselves. */
  lemma LeftoverLineFixed(md: Metadata, i: nat)
    requires StableMetadata(md) && i < |md|
    ensures Fixed(EntryLine(md[i].0, md[i].1), md)
    ensures ConsumedKey(EntryLine(md[i].0, md[i].1), md) == Some(md[i].0)
  {
    FindOwnKey(md, i);
    EntryLineFixed(md, i, md[i].0);
  }

  /** The line a field emits is read back as itself. */
  lemma EmittedLineFixed(field: string, name: string, md: Metadata)
    requires StableMetadata(md)
    requires SingleLineField(field) && IsLine(field) && FieldName(field) == Some(name)
    ensures forall l :: l in EmitField(field, name, md) ==> Fixed(l, md)
  {
    match Dispose(name, md)
    case Overridden(i) =>
      assert name[0] == field[0];
      assert forall c :: c in name ==> c in field;
      EntryLineFixed(md, i, name);
    case _ =>
  }

  lemma {:induction false} FieldLinesFixed(fields: seq<string>, md: Metadata)
    requires StableMetadata(md)
    requires forall i :: 0 <= i < |fields| ==> SingleLineField(fields[i]) && IsLine(fields[i])
    requires FieldLines(fields, md).Success?
    ensures forall l :: l in FieldLines(fields, md).value ==> Fixed(l, md)
    decreases |fields|
  {
    if |fields| > 0 {
      FieldLinesFixed(fields[1..], md);
      EmittedLineFixed(fields[0], FieldName(fields[0]).value, md);
    }
  }

  lemma {:induction false} FixedLinesKept(lines: seq<string>, md: Metadata)
    requires forall i :: 0 <= i < |lines| ==> Fixed(lines[i], md)
    ensures FieldLines(lines, md) == Success(lines)
    decreases |lines|
  {
    if |lines| > 0 {
      var rest := lines[1..];
      assert forall i :: 0 <= i < |rest| ==> rest[i] == lines[i + 1];
      FixedLinesKept(rest, md);
      assert Fixed(lines[0], md);
      assert EmitField(lines[0], FieldName(lines[0]).value, md) == [lines[0]];
      assert [lines[0]] + rest == lines;
    }
  }

  /** A key consumed by the first merge is consumed again by the line that
      replaced the field. */
  lemma ConsumedKeyLine(fields: seq<string>, md: Metadata, i: nat) returns (line: string)
    requires StableMetadata(md) && i < |md|
    requires forall i :: 0 <= i < |fields| ==> SingleLineField(fields[i]) && IsLine(fields[i])
    requires Rebuild(fields, md).Success?
    requires md[i].0 in Consumed(fields, md)
    ensures line in Rebuild(fields, md).value
    ensures ConsumedKey(line, md) == Some(md[i].0)
  {
    var key := md[i].0;
    var j :| 0 <= j < |fields| && ConsumedKey(fields[j], md) == Some(key);
    var name := FieldName(fields[j]).value;
    var k := Dispose(name, md).index;
    if k != i {
      assert SameIgnoringCase(md[k].0, md[i].0);
    }
    assert name[0] == fields[j][0];
    assert forall c :: c in name ==> c in fields[j];
    EntryLineFixed(md, i, name);
    EmittedLinesInOutput(fields, md, j, name);
    line := EntryLine(name, md[i].1);
  }

  /** The output line that carries key `i`, and that consumes it when the
      output is merged again. */
  lemma LineOfKey(fields: seq<string>, md: Metadata, i: nat) returns (p: nat)
    requires StableMetadata(md) && i < |md|
    requires forall i :: 0 <= i < |fields| ==> SingleLineField(fields[i]) && IsLine(fields[i])
    requires Rebuild(fields, md).Success?
    ensures p < |Rebuild(fields, md).value|
    ensures ConsumedKey(Rebuild(fields, md).value[p], md) == Some(md[i].0)
  {
    var out := Rebuild(fields, md).value;
    var line: string;
    if md[i].0 in Consumed(fields, md) {
      line := ConsumedKeyLine(fields, md, i);
    } else {
      LeftoverLineFixed(md, i);
      line := EntryLine(md[i].0, md[i].1);
      assert line in out;
    }
    p :| p < |out| && out[p] == line;
  }

  /** Every key is consumed when the output of a merge is merged again. */
  lemma AllKeysConsumedOnRerun(fields: seq<string>, md: Metadata)
    requires StableMetadata(md)
    requires forall i :: 0 <= i < |fields| ==> SingleLineField(fields[i]) && IsLine(fields[i])
    requires Rebuild(fields, md).Success?
    ensures forall i :: 0 <= i < |md| ==> md[i].0 in Consumed(Rebuild(fields, md).value, md)
  {
    forall i | 0 <= i < |md|
      ensures md[i].0 in Consumed(Rebuild(fields, md).value, md)
    {
      var p := LineOfKey(fields, md, i);
    }
  }

  lemma LeftoverNone(md: Metadata, consumed: set<string>)
    requires forall i :: 0 <= i < |md| ==> md[i].0 in consumed
    ensures Leftover(md, consumed) == []
  {
  }

  /** Every line of a merge's output is read back as itself. */
  lemma OutputLinesFixed(fields: seq<string>, md: Metadata)
    requires StableMetadata(md)
    requires forall i :: 0 <= i < |fields| ==> SingleLineField(fields[i]) && IsLine(fields[i])
    requires Rebuild(fields, md).Success?
    ensures forall i :: 0 <= i < |Rebuild(fields, md).value| ==> Fixed(Rebuild(fields, md).value[i], md)
  {
    FieldLinesFixed(fields, md);
    var fieldLines := FieldLines(fields, md).value;
    var leftover := Leftover(md, Consumed(fields, md));
    forall l | l in leftover
      ensures Fixed(l, md)
    {
      var i :| 0 <= i < |md| && md[i].0 !in Consumed(fields, md) && l == EntryLine(md[i].0, md[i].1);
      LeftoverLineFixed(md, i);
    }
    assert Rebuild(fields, md).value == fieldLines + leftover;
  }

  /** Merging the output of a merge again with the same metadata gives the
      same text, provided the metadata keys are possible field names that
      differ even ignoring case, none is `Remotes`, no key or value holds a
      line feed, and no field of the original text starts with whitespace. */
  lemma MergeIdempotent(text: string, md: Metadata)
    requires StableMetadata(md)
    requires forall i :: 0 <= i < |Fields(text)| ==> !StartsWithSpace(Fields(text)[i])
    requires Merge(text, md).Success?
    ensures Merge(Merge(text, md).value, md) == Merge(text, md)
  {
    var fields := Fields(text);
    var out := Rebuild(fields, md).value;
    OutputLinesFixed(fields, md);
    SplitTerminated(out);
    GroupSingleLines(out);
    assert Fields(Terminated(out)) == out;
    FixedLinesKept(out, md);
    AllKeysConsumedOnRerun(fields, md);
    LeftoverNone(md, Consumed(out, md));
    assert out + [] == out;
    assert Rebuild(out, md) == Success(out);
  }
}
