/** Properties of the DESCRIPTION merge: how lines group into fields, when the
    merge throws, what each field turns into, and that every metadata entry is
    recorded. */
module DescriptionProperties {
  import opened Wrappers
  import opened Text
  import opened Description

  // ---------------------------------------------------------------------
  // Grouping
  // ---------------------------------------------------------------------

  /** Lines that each continue the field before them. */
  predicate AllContinuations(lines: seq<string>) {
    forall i :: 0 <= i < |lines| ==> StartsWithSpace(lines[i])
  }

  /** The next line, if any, does not continue a field. */
  predicate OpensField(lines: seq<string>) {
    |lines| == 0 || !StartsWithSpace(lines[0])
  }

  /** Grouping neither loses nor inserts text: the fields glued together are
      the accumulated field followed by the lines glued together (only the
      line feeds removed by the split are gone). */
  lemma {:induction false} GroupKeepsText(lines: seq<string>, current: string)
    ensures Concat(GroupFrom(lines, current)) == current + Concat(lines)
    decreases |lines|
  {
    if |lines| > 0 {
      GroupKeepsText(lines[1..], if StartsWithSpace(lines[0]) then current + lines[0] else lines[0]);
      if !StartsWithSpace(lines[0]) {
        ConcatAppend(Flush(current), GroupFrom(lines[1..], lines[0]));
      }
    }
  }

  /** Continuation lines are glued onto the field being accumulated, with
      no separator between them. */
  lemma {:induction false} GlueContinuations(conts: seq<string>, rest: seq<string>, current: string)
    requires AllContinuations(conts)
    ensures GroupFrom(conts + rest, current) == GroupFrom(rest, current + Concat(conts))
    decreases |conts|
  {
    if |conts| > 0 {
      assert (conts + rest)[1..] == conts[1..] + rest;
      GlueContinuations(conts[1..], rest, current + conts[0]);
      assert current + conts[0] + Concat(conts[1..]) == current + Concat(conts);
    } else {
      assert conts + rest == rest;
      assert current + Concat(conts) == current;
    }
  }

  /** A line that does not start with whitespace (or the end of the text)
      closes the accumulated field, which is kept only if it is non-empty. */
  lemma FlushBeforeField(rest: seq<string>, current: string)
    requires OpensField(rest)
    ensures GroupFrom(rest, current) == Flush(current) + Group(rest)
  {
  }

  /** A head line and the continuation lines after it form one field, their
      concatenation, which is dropped when it is empty. */
  lemma GroupBlock(head: string, conts: seq<string>, rest: seq<string>)
    requires !StartsWithSpace(head)
    requires AllContinuations(conts)
    requires OpensField(rest)
    ensures Group([head] + conts + rest) == Flush(head + Concat(conts)) + Group(rest)
  {
    assert ([head] + conts + rest)[1..] == conts + rest;
    GlueContinuations(conts, rest, head);
    FlushBeforeField(rest, head + Concat(conts));
  }

  /** Continuation lines at the very start of the text (or after a blank
      line) form a field of their own, which begins with whitespace. */
  lemma GroupLeadingContinuations(conts: seq<string>, rest: seq<string>)
    requires AllContinuations(conts)
    requires OpensField(rest)
    ensures Group(conts + rest) == Flush(Concat(conts)) + Group(rest)
  {
    GlueContinuations(conts, rest, "");
    assert "" + Concat(conts) == Concat(conts);
    FlushBeforeField(rest, Concat(conts));
  }

  /** A non-empty line that does not start with whitespace. */
  predicate SingleLineField(line: string) {
    line != "" && !StartsWithSpace(line)
  }

  /** Lines that are each a complete field group one-to-one into fields, and
      the empty piece after a final line feed adds no field. */
  lemma {:induction false} GroupSingleLines(lines: seq<string>)
    requires forall i :: 0 <= i < |lines| ==> SingleLineField(lines[i])
    ensures Group(lines) == lines
    ensures Group(lines + [""]) == lines
    decreases |lines|
  {
    if |lines| > 0 {
      GroupSingleLines(lines[1..]);
      assert lines[0] + Concat([]) == lines[0];
      assert Flush(lines[0]) == [lines[0]];
      assert [lines[0]] + lines[1..] == lines;
      GroupBlock(lines[0], [], lines[1..]);
      assert [lines[0]] + [] + lines[1..] == lines;
      assert Group(lines) == [lines[0]] + Group(lines[1..]);
      GroupBlock(lines[0], [], lines[1..] + [""]);
      assert [lines[0]] + [] + (lines[1..] + [""]) == lines + [""];
      assert Group(lines + [""]) == [lines[0]] + Group(lines[1..] + [""]);
    } else {
      assert lines + [""] == [""];
      assert !StartsWithSpace("");
      assert GroupFrom([""], "") == Flush("") + GroupFrom([], "");
    }
  }

  // ---------------------------------------------------------------------
  // The error path
  // ---------------------------------------------------------------------

  /** The rebuild throws exactly when some field has no name, and then for
      the first such field. */
  lemma {:induction false} FieldLinesFailure(fields: seq<string>, md: Metadata)
    ensures FieldLines(fields, md).Failure? <==>
              exists i :: 0 <= i < |fields| && FieldName(fields[i]).None?
    ensures FieldLines(fields, md).Failure? ==>
              exists i :: && 0 <= i < |fields| && FieldName(fields[i]).None?
                          && FieldLines(fields, md).error == UnnamedField(fields[i])
                          && forall j :: 0 <= j < i ==> FieldName(fields[j]).Some?
    decreases |fields|
  {
    if |fields| > 0 {
      FieldLinesFailure(fields[1..], md);
      assert forall i :: 1 <= i < |fields| ==> fields[i] == fields[1..][i - 1];
      if FieldName(fields[0]).Some? && FieldLines(fields[1..], md).Failure? {
        var i :| && 0 <= i < |fields[1..]| && FieldName(fields[1..][i]).None?
                 && FieldLines(fields[1..], md).error == UnnamedField(fields[1..][i])
                 && forall j :: 0 <= j < i ==> FieldName(fields[1..][j]).Some?;
        assert FieldName(fields[i + 1]).None?;
      }
    }
  }

  /** The merge throws exactly when some field of the text begins with a
      colon, and it throws at the first such field. */
  lemma MergeFailsIff(text: string, md: Metadata)
    ensures Merge(text, md).Failure? <==>
              exists i :: 0 <= i < |Fields(text)| && Fields(text)[i][0] == ':'
    ensures Merge(text, md).Failure? ==>
              exists i :: && 0 <= i < |Fields(text)| && Fields(text)[i][0] == ':'
                          && Merge(text, md).error == UnnamedField(Fields(text)[i])
                          && forall j :: 0 <= j < i ==> Fields(text)[j][0] != ':'
  {
    FieldLinesFailure(Fields(text), md);
  }

  // ---------------------------------------------------------------------
  // What each field turns into
  // ---------------------------------------------------------------------

  /** The rebuild works field by field: the output of a concatenation is the
      output of the first part followed by the output of the second. */
  lemma {:induction false} FieldLinesAppend(a: seq<string>, b: seq<string>, md: Metadata)
    ensures FieldLines(a + b, md) ==
              match FieldLines(a, md)
              case Failure(e) => Failure(e)
              case Success(lines) => Prepend(lines, FieldLines(b, md))
    decreases |a|
  {
    if |a| == 0 {
      assert a + b == b;
      PrependEmpty(FieldLines(b, md));
    } else {
      assert (a + b)[1..] == a[1..] + b;
      assert (a + b)[0] == a[0];
      FieldLinesAppend(a[1..], b, md);
      var rest := FieldLines(b, md);
      if FieldName(a[0]).Some? && FieldLines(a[1..], md).Success? && rest.Success? {
        var out := EmitField(a[0], FieldName(a[0]).value, md);
        assert out + (FieldLines(a[1..], md).value + rest.value)
            == out + FieldLines(a[1..], md).value + rest.value;
      }
    }
  }

  /** The output of the fields around one field, when the rebuild succeeds. */
  lemma AroundField(pre: seq<string>, f: string, post: seq<string>, md: Metadata, name: string)
    requires FieldLines(pre, md).Success? && FieldLines(post, md).Success?
    requires FieldName(f) == Some(name)
    ensures FieldLines(pre + [f] + post, md) ==
              Success(FieldLines(pre, md).value + EmitField(f, name, md) + FieldLines(post, md).value)
  {
    FieldLinesAppend(pre, [f] + post, md);
    assert pre + [f] + post == pre + ([f] + post);
    assert ([f] + post)[1..] == post;
    var p := FieldLines(pre, md).value;
    var e := EmitField(f, name, md);
    var q := FieldLines(post, md).value;
    assert p + (e + q) == p + e + q;
  }

  /** A field whose name matches a metadata key, ignoring case, becomes the
      single line `fieldName: value` in its own place, keeping the field's own
      spelling of the name and taking the value of the FIRST key that matches;
      its continuation text is gone, and the key counts as consumed. */
  lemma MatchedFieldRewritten(pre: seq<string>, f: string, post: seq<string>, md: Metadata,
                              name: string, i: nat)
    requires FieldLines(pre, md).Success? && FieldLines(post, md).Success?
    requires FieldName(f) == Some(name) && !IsRemotes(name)
    requires i < |md| && SameIgnoringCase(md[i].0, name)
    requires forall j :: 0 <= j < i ==> !SameIgnoringCase(md[j].0, name)
    ensures FieldLines(pre + [f] + post, md) ==
              Success(FieldLines(pre, md).value + [name + ": " + md[i].1] + FieldLines(post, md).value)
    ensures md[i].0 in Consumed(pre + [f] + post, md)
  {
    AroundField(pre, f, post, md, name);
    assert (pre + [f] + post)[|pre|] == f;
  }

  /** A field that is not `remotes` and matches no metadata key is copied
      verbatim, in its own place. */
  lemma UnmatchedFieldKept(pre: seq<string>, f: string, post: seq<string>, md: Metadata, name: string)
    requires FieldLines(pre, md).Success? && FieldLines(post, md).Success?
    requires FieldName(f) == Some(name) && !IsRemotes(name)
    requires forall j :: 0 <= j < |md| ==> !SameIgnoringCase(md[j].0, name)
    ensures FieldLines(pre + [f] + post, md) ==
              Success(FieldLines(pre, md).value + [f] + FieldLines(post, md).value)
  {
    AroundField(pre, f, post, md, name);
  }

  /** A `remotes` field, in any letter case, produces no output at all,
      whatever the metadata holds. */
  lemma RemotesFieldDropped(pre: seq<string>, f: string, post: seq<string>, md: Metadata, name: string)
    requires FieldLines(pre, md).Success? && FieldLines(post, md).Success?
    requires FieldName(f) == Some(name) && IsRemotes(name)
    ensures FieldLines(pre + [f] + post, md) ==
              Success(FieldLines(pre, md).value + FieldLines(post, md).value)
  {
    AroundField(pre, f, post, md, name);
    assert EmitField(f, name, md) == [];
    assert FieldLines(pre, md).value + [] == FieldLines(pre, md).value;
  }

  /** The fields other than `remotes` fields. */
  function WithoutRemotes(fields: seq<string>): (kept: seq<string>)
    ensures |kept| <= |fields|
  {
    if |fields| == 0 then []
    else
      var rest := WithoutRemotes(fields[1..]);
      match FieldName(fields[0])
      case Some(name) => if IsRemotes(name) then rest else [fields[0]] + rest
      case None => [fields[0]] + rest
  }

  lemma {:induction false} RemotesInvisibleToFields(fields: seq<string>, md: Metadata)
    ensures FieldLines(fields, md) == FieldLines(WithoutRemotes(fields), md)
    ensures Consumed(fields, md) == Consumed(WithoutRemotes(fields), md)
    decreases |fields|
  {
    if |fields| > 0 {
      RemotesInvisibleToFields(fields[1..], md);
      var rest := WithoutRemotes(fields[1..]);
      var name := FieldName(fields[0]);
      if name.None? || !IsRemotes(name.value) {
        assert WithoutRemotes(fields) == [fields[0]] + rest;
        assert ([fields[0]] + rest)[1..] == rest;
        assert Consumed(fields, md) == Consumed([fields[0]] + rest, md);
      } else {
        assert ConsumedKey(fields[0], md) == None;
        PrependEmpty(FieldLines(fields[1..], md));
      }
    }
  }

  /** Removing the `remotes` fields beforehand changes neither the output nor
      the error: they are invisible to the merge, so a `Remotes` metadata key
      can never be consumed by a field. */
  lemma RemotesInvisible(fields: seq<string>, md: Metadata)
    ensures Rebuild(fields, md) == Rebuild(WithoutRemotes(fields), md)
  {
    RemotesInvisibleToFields(fields, md);
  }

  // ---------------------------------------------------------------------
  // Every metadata entry is recorded
  // ---------------------------------------------------------------------

  /** The appended lines come in metadata order, one per unconsumed entry:
      the leftover of a concatenation is the two leftovers in sequence, and
      a single entry gives its `key: value` line exactly when its key was not
      consumed. */
  lemma {:induction false} LeftoverInOrder(a: Metadata, b: Metadata, consumed: set<string>)
    ensures Leftover(a + b, consumed) == Leftover(a, consumed) + Leftover(b, consumed)
    ensures |a| == 1 ==>
              Leftover(a, consumed) == if a[0].0 in consumed then [] else [EntryLine(a[0].0, a[0].1)]
    decreases |a|
  {
    if |a| > 0 {
      assert (a + b)[0] == a[0];
      assert (a + b)[1..] == a[1..] + b;
      LeftoverInOrder(a[1..], b, consumed);
      if |a| == 1 {
        assert a[1..] == [];
      }
    } else {
      assert a + b == b;
    }
  }

  /** `line` is `name: value` for some `name` equal to `key` ignoring case. */
  predicate RecordsEntry(line: string, key: string, value: string) {
    var n := |line| - |value| - 2;
    n >= 0 && line[n..] == ": " + value && SameIgnoringCase(line[..n], key)
  }

  /** A JavaScript object never holds the same key twice. */
  predicate DistinctKeys(md: Metadata) {
    forall i, j :: 0 <= i < j < |md| ==> md[i].0 != md[j].0
  }

  lemma EntryLineRecords(name: string, key: string, value: string)
    requires SameIgnoringCase(name, key)
    ensures RecordsEntry(EntryLine(name, value), key, value)
  {
    var line := EntryLine(name, value);
    assert line[..|name|] == name;
    assert line[|name|..] == ": " + value;
  }

  /** The lines a named field emits are among the lines of a successful rebuild. */
  lemma {:induction false} EmittedLinesInOutput(fields: seq<string>, md: Metadata, j: nat, name: string)
    requires FieldLines(fields, md).Success?
    requires j < |fields| && FieldName(fields[j]) == Some(name)
    ensures forall l :: l in EmitField(fields[j], name, md) ==> l in FieldLines(fields, md).value
    decreases |fields|
  {
    if j > 0 {
      assert fields[1..][j - 1] == fields[j];
      EmittedLinesInOutput(fields[1..], md, j - 1, name);
    }
  }

  /** Every metadata entry appears in the output as a `name: value` line
      whose name equals its key ignoring case: either in the place of a field
      that consumed it or appended after the fields. This holds for a
      `Remotes` key too. */
  lemma EveryEntryRecorded(fields: seq<string>, md: Metadata)
    requires DistinctKeys(md)
    requires Rebuild(fields, md).Success?
    ensures forall i :: 0 <= i < |md| ==>
              exists l :: l in Rebuild(fields, md).value && RecordsEntry(l, md[i].0, md[i].1)
  {
    var out := Rebuild(fields, md).value;
    var consumed := Consumed(fields, md);
    forall i | 0 <= i < |md|
      ensures exists l :: l in out && RecordsEntry(l, md[i].0, md[i].1)
    {
      var key := md[i].0;
      if key in consumed {
        var j :| 0 <= j < |fields| && ConsumedKey(fields[j], md) == Some(key);
        var name := FieldName(fields[j]).value;
        var k := Dispose(name, md).index;
        assert md[k].0 == key;
        assert k == i;
        EmittedLinesInOutput(fields, md, j, name);
        EntryLineRecords(name, key, md[i].1);
        assert EntryLine(name, md[i].1) in out;
      } else {
        EntryLineRecords(key, key, md[i].1);
        assert EntryLine(key, md[i].1) in out;
      }
    }
  }
}
