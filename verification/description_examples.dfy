/** Worked instances of the DESCRIPTION merge. */
module DescriptionExamples {
  import opened Wrappers
  import opened Text
  import opened Description
  import opened DescriptionProperties
  import opened DescriptionRerun

  // ---------------------------------------------------------------------
  // Reading off a merge from its parts
  // ---------------------------------------------------------------------

  lemma TerminatedOne(a: string)
    ensures Terminated([a]) == a + "\n"
  {
    assert [a][1..] == [];
  }

  lemma TerminatedTwo(a: string, b: string)
    ensures Terminated([a, b]) == a + "\n" + (b + "\n")
  {
    assert [a, b][1..] == [b];
    TerminatedOne(b);
  }

  /** The keys a field consumes, as a set. */
  function KeySet(key: Option<string>): set<string> {
    match key
    case Some(k) => {k}
    case None => {}
  }

  lemma FieldLinesOne(f: string, md: Metadata, name: string)
    requires FieldName(f) == Some(name)
    ensures FieldLines([f], md) == Success(EmitField(f, name, md))
    ensures Consumed([f], md) == KeySet(ConsumedKey(f, md))
  {
    assert [f][1..] == [];
    assert EmitField(f, name, md) + [] == EmitField(f, name, md);
  }

  lemma FieldLinesTwo(f: string, g: string, md: Metadata, nf: string, ng: string)
    requires FieldName(f) == Some(nf) && FieldName(g) == Some(ng)
    ensures FieldLines([f, g], md) == Success(EmitField(f, nf, md) + EmitField(g, ng, md))
    ensures Consumed([f, g], md) == KeySet(ConsumedKey(f, md)) + KeySet(ConsumedKey(g, md))
  {
    assert [f, g][1..] == [g];
    FieldLinesOne(g, md, ng);
  }

  /** What one named field emits and consumes, by its disposition. */
  lemma EmitByDisposition(f: string, name: string, md: Metadata)
    requires FieldName(f) == Some(name)
    ensures Dispose(name, md) == Kept ==> EmitField(f, name, md) == [f] && ConsumedKey(f, md) == None
    ensures Dispose(name, md) == Dropped ==> EmitField(f, name, md) == [] && ConsumedKey(f, md) == None
    ensures Dispose(name, md).Overridden? ==>
              var i := Dispose(name, md).index;
              EmitField(f, name, md) == [EntryLine(name, md[i].1)] && ConsumedKey(f, md) == Some(md[i].0)
  {
  }

  /** The fields of a text of complete one-line fields ended by a line feed. */
  lemma FieldsOfLines(lines: seq<string>)
    requires forall i :: 0 <= i < |lines| ==> SingleLineField(lines[i]) && IsLine(lines[i])
    ensures Fields(Terminated(lines)) == lines
  {
    SplitTerminated(lines);
    GroupSingleLines(lines);
  }

  /** The merge of a text of one-line fields, read off its parts. */
  lemma MergeOfLines(lines: seq<string>, md: Metadata, out: seq<string>, consumed: set<string>)
    requires forall i :: 0 <= i < |lines| ==> SingleLineField(lines[i]) && IsLine(lines[i])
    requires FieldLines(lines, md) == Success(out)
    requires Consumed(lines, md) == consumed
    ensures Merge(Terminated(lines), md) == Success(Terminated(out + Leftover(md, consumed)))
  {
    FieldsOfLines(lines);
  }

  // ---------------------------------------------------------------------
  // Overlay: keep, rewrite in place, append
  // ---------------------------------------------------------------------

  const OverlayMetadata: Metadata := [("B", "9"), ("C", "3")]

  lemma OverlayNames()
    ensures FieldName("A: 1") == Some("A") && FieldName("B: 2") == Some("B")
    ensures Dispose("A", OverlayMetadata) == Kept
    ensures Dispose("B", OverlayMetadata) == Overridden(0)
  {
    assert EntryLine("A", "1") == "A: 1" && EntryLine("B", "2") == "B: 2";
    NameOfEntryLine("A", "1");
    NameOfEntryLine("B", "2");
    assert Lower("B") == "b" && Lower("C") == "c" && Lower("A") == "a";
  }

  /** A kept field followed by one that matches the first key. */
  lemma KeepThenOverride(f: string, g: string, md: Metadata, nf: string, ng: string)
    requires FieldName(f) == Some(nf) && FieldName(g) == Some(ng)
    requires Dispose(nf, md) == Kept && Dispose(ng, md) == Overridden(0)
    ensures FieldLines([f, g], md) == Success([f, EntryLine(ng, md[0].1)])
    ensures Consumed([f, g], md) == {md[0].0}
  {
    var lg := EntryLine(ng, md[0].1);
    assert EmitField(f, nf, md) == [f] && ConsumedKey(f, md) == None by {
      EmitByDisposition(f, nf, md);
    }
    assert EmitField(g, ng, md) == [lg] && ConsumedKey(g, md) == Some(md[0].0) by {
      EmitByDisposition(g, ng, md);
    }
    FieldLinesTwo(f, g, md, nf, ng);
    assert [f] + [lg] == [f, lg];
    assert KeySet(None) + KeySet(Some(md[0].0)) == {md[0].0};
  }

  lemma OverlayFieldLines()
    ensures FieldLines(["A: 1", "B: 2"], OverlayMetadata) == Success(["A: 1", "B: 9"])
    ensures Consumed(["A: 1", "B: 2"], OverlayMetadata) == {"B"}
  {
    OverlayNames();
    KeepThenOverride("A: 1", "B: 2", OverlayMetadata, "A", "B");
    assert EntryLine("B", "9") == "B: 9";
  }

  lemma OverlayLeftover()
    ensures Leftover(OverlayMetadata, {"B"}) == ["C: 3"]
  {
    var md := OverlayMetadata;
    assert md[1..][1..] == [];
    assert "C" != "B";
    assert Leftover(md[1..], {"B"}) == [EntryLine("C", "3")];
    assert EntryLine("C", "3") == "C: 3";
    assert Leftover(md, {"B"}) == Leftover(md[1..], {"B"});
  }

  lemma OverlayTexts()
    ensures Terminated(["A: 1", "B: 2"]) == "A: 1\nB: 2\n"
    ensures Terminated(["A: 1", "B: 9"] + ["C: 3"]) == "A: 1\nB: 9\nC: 3\n"
  {
    TerminatedTwo("A: 1", "B: 2");
    TerminatedAppend(["A: 1", "B: 9"], ["C: 3"]);
    TerminatedTwo("A: 1", "B: 9");
    TerminatedOne("C: 3");
  }

  lemma OverlayLines()
    ensures forall i :: 0 <= i < 2 ==> SingleLineField(["A: 1", "B: 2"][i]) && IsLine(["A: 1", "B: 2"][i])
  {
  }

  /** `A: 1` is kept in place, `B: 2` is rewritten in place with the value
      of key `B`, and the unused key `C` is appended at the end. */
  lemma OverlayExample()
    ensures Merge("A: 1\nB: 2\n", OverlayMetadata) == Success("A: 1\nB: 9\nC: 3\n")
  {
    OverlayTexts();
    OverlayLines();
    OverlayFieldLines();
    OverlayLeftover();
    MergeOfLines(["A: 1", "B: 2"], OverlayMetadata, ["A: 1", "B: 9"], {"B"});
  }

  // ---------------------------------------------------------------------
  // Case-insensitive match
  // ---------------------------------------------------------------------

  const CaseMetadata: Metadata := [("Sha", "abc")]

  lemma CaseFieldLines()
    ensures FieldLines(["SHA: old"], CaseMetadata) == Success(["SHA: abc"])
    ensures Consumed(["SHA: old"], CaseMetadata) == {"Sha"}
  {
    CaseNameAndDisposition();
    OverriddenAlone("SHA: old", CaseMetadata, "SHA");
    assert EntryLine("SHA", "abc") == "SHA: abc";
  }

  lemma CaseNameAndDisposition()
    ensures FieldName("SHA: old") == Some("SHA")
    ensures Dispose("SHA", CaseMetadata) == Overridden(0)
  {
    assert EntryLine("SHA", "old") == "SHA: old";
    NameOfEntryLine("SHA", "old");
    assert Lower("SHA") == "sha" == Lower("Sha");
  }

  /** A lone field rewritten by the first metadata entry. */
  lemma OverriddenAlone(f: string, md: Metadata, name: string)
    requires FieldName(f) == Some(name) && Dispose(name, md) == Overridden(0)
    ensures FieldLines([f], md) == Success([EntryLine(name, md[0].1)])
    ensures Consumed([f], md) == {md[0].0}
  {
    EmitByDisposition(f, name, md);
    FieldLinesOne(f, md, name);
  }

  lemma CaseTexts()
    ensures Terminated(["SHA: old"]) == "SHA: old\n"
    ensures Terminated(["SHA: abc"] + Leftover(CaseMetadata, {"Sha"})) == "SHA: abc\n"
  {
    assert CaseMetadata[1..] == [];
    assert ["SHA: abc"] + [] == ["SHA: abc"];
    TerminatedOne("SHA: old");
    TerminatedOne("SHA: abc");
  }

  /** Matching ignores letter case and keeps the field's own spelling: key
      `Sha` rewrites field `SHA`. */
  lemma CaseInsensitiveExample()
    ensures Merge("SHA: old\n", CaseMetadata) == Success("SHA: abc\n")
  {
    CaseTexts();
    CaseFieldLines();
    MergeOfLines(["SHA: old"], CaseMetadata, ["SHA: abc"], {"Sha"});
  }

  // ---------------------------------------------------------------------
  // Remotes
  // ---------------------------------------------------------------------

  const RemotesMetadata: Metadata := [("Remotes", "c/d")]

  lemma RemotesNames()
    ensures FieldName("Remotes: a/b") == Some("Remotes") && FieldName("A: 1") == Some("A")
  {
    assert EntryLine("Remotes", "a/b") == "Remotes: a/b" && EntryLine("A", "1") == "A: 1";
    NameOfEntryLine("Remotes", "a/b");
    NameOfEntryLine("A", "1");
  }

  lemma RemotesDisposition()
    ensures Dispose("Remotes", RemotesMetadata) == Dropped
    ensures Dispose("A", RemotesMetadata) == Kept
  {
    assert Lower("Remotes") == "remotes" && Lower("A") == "a";
  }

  /** A dropped field followed by a kept one. */
  lemma DropThenKeep(f: string, g: string, md: Metadata, nf: string, ng: string)
    requires FieldName(f) == Some(nf) && FieldName(g) == Some(ng)
    requires Dispose(nf, md) == Dropped && Dispose(ng, md) == Kept
    ensures FieldLines([f, g], md) == Success([g])
    ensures Consumed([f, g], md) == {}
  {
    EmitByDisposition(f, nf, md);
    EmitByDisposition(g, ng, md);
    FieldLinesTwo(f, g, md, nf, ng);
    assert [] + [g] == [g];
  }

  lemma RemotesFieldLines()
    ensures FieldLines(["Remotes: a/b", "A: 1"], RemotesMetadata) == Success(["A: 1"])
    ensures Consumed(["Remotes: a/b", "A: 1"], RemotesMetadata) == {}
  {
    RemotesNames();
    RemotesDisposition();
    DropThenKeep("Remotes: a/b", "A: 1", RemotesMetadata, "Remotes", "A");
  }

  lemma RemotesLeftover()
    ensures Leftover(RemotesMetadata, {}) == ["Remotes: c/d"]
  {
    assert RemotesMetadata[1..] == [];
    assert EntryLine("Remotes", "c/d") == "Remotes: c/d";
  }

  lemma RemotesTexts()
    ensures Terminated(["Remotes: a/b", "A: 1"]) == "Remotes: a/b\nA: 1\n"
    ensures Terminated(["A: 1"] + ["Remotes: c/d"]) == "A: 1\nRemotes: c/d\n"
  {
    TerminatedTwo("Remotes: a/b", "A: 1");
    assert ["A: 1"] + ["Remotes: c/d"] == ["A: 1", "Remotes: c/d"];
    TerminatedTwo("A: 1", "Remotes: c/d");
  }

  lemma RemotesLines()
    ensures forall i :: 0 <= i < 2 ==>
              SingleLineField(["Remotes: a/b", "A: 1"][i]) && IsLine(["Remotes: a/b", "A: 1"][i])
  {
  }

  /** A `Remotes` field vanishes even when the metadata has a `Remotes` key;
      the key is appended at the end instead. */
  lemma RemotesExample()
    ensures Merge("Remotes: a/b\nA: 1\n", RemotesMetadata) == Success("A: 1\nRemotes: c/d\n")
  {
    RemotesTexts();
    RemotesLines();
    RemotesFieldLines();
    RemotesLeftover();
    MergeOfLines(["Remotes: a/b", "A: 1"], RemotesMetadata, ["A: 1"], {});
  }

  // ---------------------------------------------------------------------
  // Continuation lines
  // ---------------------------------------------------------------------

  lemma ContinuationParts()
    ensures FieldName("Title: a") == Some("Title")
    ensures Dispose("Title", []) == Kept
    ensures AllContinuations(["  b"])
  {
    assert EntryLine("Title", "a") == "Title: a";
    NameOfEntryLine("Title", "a");
    assert Lower("Title") == "title";
    assert StartsWithSpace("  b");
  }

  lemma ContinuationTexts()
    ensures Terminated(["Title: a"] + ["  b"]) == "Title: a\n  b\n"
    ensures "Title: a" + Concat(["  b"]) + "\n" + Terminated(Leftover([], {})) == "Title: a  b\n"
  {
    assert ["Title: a"] + ["  b"] == ["Title: a", "  b"];
    TerminatedTwo("Title: a", "  b");
    assert Concat(["  b"]) == "  b";
  }

  /** A continuation line is glued onto its field without a line feed. */
  lemma ContinuationExample()
    ensures Merge("Title: a\n  b\n", []) == Success("Title: a  b\n")
  {
    ContinuationParts();
    ContinuationTexts();
    ContinuationsJoined("Title: a", ["  b"], []);
  }

  // ---------------------------------------------------------------------
  // A field without a name
  // ---------------------------------------------------------------------

  lemma UnnamedParts()
    ensures Terminated(["A: 1", ": x"]) == "A: 1\n: x\n"
    ensures FieldName("A: 1") == Some("A") && FieldName(": x") == None
  {
    TerminatedTwo("A: 1", ": x");
    assert EntryLine("A", "1") == "A: 1";
    NameOfEntryLine("A", "1");
  }

  lemma UnnamedLines()
    ensures forall i :: 0 <= i < 2 ==> SingleLineField(["A: 1", ": x"][i]) && IsLine(["A: 1", ": x"][i])
  {
  }

  /** A field that starts with a colon makes the merge throw. */
  lemma UnnamedFieldExample()
    ensures Merge("A: 1\n: x\n", []) == Failure(UnnamedField(": x"))
  {
    UnnamedParts();
    UnnamedLines();
    FieldsOfLines(["A: 1", ": x"]);
    assert ["A: 1", ": x"][1..] == [": x"];
  }

  // ---------------------------------------------------------------------
  // Keys that differ only in letter case
  // ---------------------------------------------------------------------

  const TwinMetadata: Metadata := [("Sha", "1"), ("SHA", "2")]

  lemma TwinLeftover()
    ensures Leftover(TwinMetadata, {}) == ["Sha: 1", "SHA: 2"]
    ensures Leftover(TwinMetadata, {"Sha"}) == ["SHA: 2"]
  {
    var md := TwinMetadata;
    assert md[1..][1..] == [];
    assert EntryLine("Sha", "1") == "Sha: 1" && EntryLine("SHA", "2") == "SHA: 2";
    assert "SHA" != "Sha";
    assert Leftover(md[1..], {}) == ["SHA: 2"];
    assert Leftover(md[1..], {"Sha"}) == ["SHA: 2"];
  }

  /** Merging into an empty text appends every entry. */
  lemma MergeIntoEmpty(md: Metadata)
    ensures Merge("", md) == Success(Terminated(Leftover(md, {})))
  {
    var none: seq<string> := [];
    assert Terminated(none) == "";
    assert FieldLines(none, md) == Success([]);
    assert Consumed(none, md) == {};
    MergeOfLines(none, md, [], {});
    assert none + Leftover(md, {}) == Leftover(md, {});
  }

  lemma TwinFirstLines()
    ensures Merge("", TwinMetadata) == Success(Terminated(["Sha: 1", "SHA: 2"]))
  {
    MergeIntoEmpty(TwinMetadata);
    TwinLeftover();
  }

  lemma TwinFirstMerge()
    ensures Merge("", TwinMetadata) == Success("Sha: 1\nSHA: 2\n")
  {
    TwinFirstLines();
    TwinSecondTexts();
  }

  /** Two fields that both match the first key. */
  lemma BothOverridden(f: string, g: string, md: Metadata, nf: string, ng: string)
    requires FieldName(f) == Some(nf) && FieldName(g) == Some(ng)
    requires Dispose(nf, md) == Overridden(0) && Dispose(ng, md) == Overridden(0)
    ensures FieldLines([f, g], md) == Success([EntryLine(nf, md[0].1), EntryLine(ng, md[0].1)])
    ensures Consumed([f, g], md) == {md[0].0}
  {
    var lf := EntryLine(nf, md[0].1);
    var lg := EntryLine(ng, md[0].1);
    assert EmitField(f, nf, md) == [lf] && ConsumedKey(f, md) == Some(md[0].0) by {
      EmitByDisposition(f, nf, md);
    }
    assert EmitField(g, ng, md) == [lg] && ConsumedKey(g, md) == Some(md[0].0) by {
      EmitByDisposition(g, ng, md);
    }
    FieldLinesTwo(f, g, md, nf, ng);
    assert [lf] + [lg] == [lf, lg];
    assert KeySet(Some(md[0].0)) + KeySet(Some(md[0].0)) == {md[0].0};
  }

  lemma TwinNamesAndDisposition()
    ensures FieldName("Sha: 1") == Some("Sha") && FieldName("SHA: 2") == Some("SHA")
    ensures Dispose("Sha", TwinMetadata) == Overridden(0)
    ensures Dispose("SHA", TwinMetadata) == Overridden(0)
  {
    assert EntryLine("Sha", "1") == "Sha: 1" && EntryLine("SHA", "2") == "SHA: 2";
    NameOfEntryLine("Sha", "1");
    NameOfEntryLine("SHA", "2");
    assert Lower("Sha") == "sha" == Lower("SHA");
  }

  lemma TwinFieldLines()
    ensures FieldLines(["Sha: 1", "SHA: 2"], TwinMetadata) == Success(["Sha: 1", "SHA: 1"])
    ensures Consumed(["Sha: 1", "SHA: 2"], TwinMetadata) == {"Sha"}
  {
    TwinNamesAndDisposition();
    BothOverridden("Sha: 1", "SHA: 2", TwinMetadata, "Sha", "SHA");
    assert EntryLine("Sha", "1") == "Sha: 1" && EntryLine("SHA", "1") == "SHA: 1";
  }

  lemma TwinSecondTexts()
    ensures Terminated(["Sha: 1", "SHA: 2"]) == "Sha: 1\nSHA: 2\n"
    ensures Terminated(["Sha: 1", "SHA: 1"] + ["SHA: 2"]) == "Sha: 1\nSHA: 1\nSHA: 2\n"
  {
    TerminatedTwo("Sha: 1", "SHA: 2");
    TerminatedAppend(["Sha: 1", "SHA: 1"], ["SHA: 2"]);
    TerminatedTwo("Sha: 1", "SHA: 1");
    TerminatedOne("SHA: 2");
  }

  lemma TwinLines()
    ensures forall i :: 0 <= i < 2 ==>
              SingleLineField(["Sha: 1", "SHA: 2"][i]) && IsLine(["Sha: 1", "SHA: 2"][i])
  {
  }

  /** Two keys that differ only in letter case make the merge grow on every
      run: the first merge appends both; the second rewrites the `SHA` line
      with the value of `Sha`, the first key that matches, and appends
      `SHA` once more. */
  lemma CaseTwinsNotIdempotent()
    ensures Merge("", TwinMetadata) == Success("Sha: 1\nSHA: 2\n")
    ensures Merge("Sha: 1\nSHA: 2\n", TwinMetadata) == Success("Sha: 1\nSHA: 1\nSHA: 2\n")
  {
    TwinFirstMerge();
    TwinSecondTexts();
    TwinLines();
    TwinFieldLines();
    TwinLeftover();
    MergeOfLines(["Sha: 1", "SHA: 2"], TwinMetadata, ["Sha: 1", "SHA: 1"], {"Sha"});
  }

  // ---------------------------------------------------------------------
  // A `Remotes` key that is not last
  // ---------------------------------------------------------------------

  const RemotesFirstMetadata: Metadata := [("Remotes", "r"), ("A", "1")]

  lemma RemotesFirstLeftover()
    ensures Leftover(RemotesFirstMetadata, {}) == ["Remotes: r", "A: 1"]
    ensures Leftover(RemotesFirstMetadata, {"A"}) == ["Remotes: r"]
  {
    var md := RemotesFirstMetadata;
    assert md[1..][1..] == [];
    assert EntryLine("Remotes", "r") == "Remotes: r" && EntryLine("A", "1") == "A: 1";
    assert "Remotes" != "A";
    assert Leftover(md[1..], {}) == ["A: 1"];
    assert Leftover(md[1..], {"A"}) == [];
  }

  lemma RemotesFirstTexts()
    ensures Terminated(["Remotes: r", "A: 1"]) == "Remotes: r\nA: 1\n"
    ensures Terminated(["A: 1"] + ["Remotes: r"]) == "A: 1\nRemotes: r\n"
  {
    TerminatedTwo("Remotes: r", "A: 1");
    assert ["A: 1"] + ["Remotes: r"] == ["A: 1", "Remotes: r"];
    TerminatedTwo("A: 1", "Remotes: r");
  }

  lemma RemotesFirstOnce()
    ensures Merge("", RemotesFirstMetadata) == Success(Terminated(["Remotes: r", "A: 1"]))
  {
    MergeIntoEmpty(RemotesFirstMetadata);
    RemotesFirstLeftover();
  }

  lemma RemotesFirstFieldNames()
    ensures FieldName("Remotes: r") == Some("Remotes")
    ensures FieldName("A: 1") == Some("A")
  {
    assert EntryLine("Remotes", "r") == "Remotes: r" && EntryLine("A", "1") == "A: 1";
    NameOfEntryLine("Remotes", "r");
    NameOfEntryLine("A", "1");
  }

  lemma RemotesFirstDisposition()
    ensures Dispose("Remotes", RemotesFirstMetadata) == Dropped
    ensures Dispose("A", RemotesFirstMetadata) == Overridden(1)
  {
    assert Lower("Remotes") == "remotes" && Lower("A") == "a";
    assert RemotesFirstMetadata[1..] == [("A", "1")];
  }

  /** A dropped field followed by one that entry `i` rewrites as `line`. */
  lemma DropThenOverride(f: string, g: string, md: Metadata, nf: string, ng: string, i: nat,
                         line: string)
    requires FieldName(f) == Some(nf) && FieldName(g) == Some(ng)
    requires Dispose(nf, md) == Dropped && Dispose(ng, md) == Overridden(i)
    requires EntryLine(ng, md[i].1) == line
    ensures FieldLines([f, g], md) == Success([line])
    ensures Consumed([f, g], md) == {md[i].0}
  {
    EmitByDisposition(f, nf, md);
    EmitByDisposition(g, ng, md);
    FieldLinesTwo(f, g, md, nf, ng);
    assert [] + [line] == [line];
    assert {} + {md[i].0} == {md[i].0};
  }

  lemma RemotesFirstRewrite()
    ensures EntryLine("A", RemotesFirstMetadata[1].1) == "A: 1"
    ensures RemotesFirstMetadata[1].0 == "A"
  {
  }

  lemma RemotesFirstFieldLines()
    ensures FieldLines(["Remotes: r", "A: 1"], RemotesFirstMetadata) == Success(["A: 1"])
    ensures Consumed(["Remotes: r", "A: 1"], RemotesFirstMetadata) == {"A"}
  {
    RemotesFirstFieldNames();
    RemotesFirstDisposition();
    RemotesFirstRewrite();
    DropThenOverride("Remotes: r", "A: 1", RemotesFirstMetadata, "Remotes", "A", 1, "A: 1");
  }

  lemma RemotesFirstLines()
    ensures forall i :: 0 <= i < 2 ==>
              SingleLineField(["Remotes: r", "A: 1"][i]) && IsLine(["Remotes: r", "A: 1"][i])
  {
  }

  /** A `Remotes` key that is not last makes a second merge differ from the
      first: the first merge appends `Remotes: r` before `A: 1`; the second
      drops that line as a `remotes` field, rewrites `A: 1` in place, and
      appends `Remotes: r` again, now last. */
  lemma RemotesKeyNotIdempotent()
    ensures Merge("", RemotesFirstMetadata) == Success("Remotes: r\nA: 1\n")
    ensures Merge("Remotes: r\nA: 1\n", RemotesFirstMetadata) == Success("A: 1\nRemotes: r\n")
  {
    RemotesFirstOnce();
    RemotesFirstTexts();
    RemotesFirstLines();
    RemotesFirstFieldLines();
    RemotesFirstLeftover();
    MergeOfLines(["Remotes: r", "A: 1"], RemotesFirstMetadata, ["A: 1"], {"A"});
  }
}
