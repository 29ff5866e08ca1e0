/** The build step around `R CMD build`: the argument list `buildPackage`
    assembles, and the choice of the tarball the build produced by comparing
    the directory before and after. Running the command is not modelled. */
module Build {
  import opened Wrappers
  import opened Text

  /** The fixed start of every build command. */
  const BaseCommand: seq<string> := ["R", "CMD", "build", "."]

  /** The optional flags of `R CMD build`, in the order `buildPackage` pushes them. */
  datatype Flag = NoBuildVignettes | NoResaveData | Md5 | User(name: string)

  function Rank(f: Flag): nat {
    match f
    case NoBuildVignettes => 0
    case NoResaveData => 1
    case Md5 => 2
    case User(_) => 3
  }

  const UserPrefix := "--user="

  /** The command-line text of a flag. */
  function Render(f: Flag): string {
    match f
    case NoBuildVignettes => "--no-build-vignettes"
    case NoResaveData => "--no-resave-data"
    case Md5 => "--md5"
    case User(name) => UserPrefix + name
  }

  /** `if (user)`: `undefined` and the empty string are both false. */
  predicate UserGiven(user: Option<string>) {
    user.Some? && user.value != ""
  }

  /** The flags the options ask for: vignettes or data resaving switched
      off, `md5` switched on, a user given. */
  predicate Wanted(buildVignettes: bool, resaveData: bool, md5: bool, user: Option<string>, f: Flag) {
    match f
    case NoBuildVignettes => !buildVignettes
    case NoResaveData => !resaveData
    case Md5 => md5
    case User(name) => UserGiven(user) && name == user.value
  }

  /** A flag when its condition holds, nothing otherwise. */
  function Optional(present: bool, f: Flag): seq<Flag> {
    if present then [f] else []
  }

  function UserFlag(user: Option<string>): seq<Flag> {
    if UserGiven(user) then [User(user.value)] else []
  }

  /** The flags `buildPackage` pushes in `index.js`, in the order it pushes them. */
  function BuildFlags(buildVignettes: bool, resaveData: bool, md5: bool, user: Option<string>): (flags: seq<Flag>)
    ensures |flags| <= 4
    ensures forall f :: f in flags ==> Wanted(buildVignettes, resaveData, md5, user, f)
  {
    Optional(!buildVignettes, NoBuildVignettes)
      + (Optional(!resaveData, NoResaveData) + (Optional(md5, Md5) + UserFlag(user)))
  }

  /** The flags pushed are exactly the ones the options ask for. */
  lemma BuildFlagsWanted(buildVignettes: bool, resaveData: bool, md5: bool, user: Option<string>, f: Flag)
    ensures f in BuildFlags(buildVignettes, resaveData, md5, user) <==> Wanted(buildVignettes, resaveData, md5, user, f)
  {
    assert f in UserFlag(user) <==> f.User? && Wanted(buildVignettes, resaveData, md5, user, f);
  }

  /** Flags in strictly increasing `Rank`, hence each at most once. */
  predicate Ranked(flags: seq<Flag>) {
    forall i, j :: 0 <= i < j < |flags| ==> Rank(flags[i]) < Rank(flags[j])
  }

  /** Every flag ranks above `k`. */
  predicate Above(k: int, flags: seq<Flag>) {
    forall i :: 0 <= i < |flags| ==> k < Rank(flags[i])
  }

  lemma OptionalPrefix(present: bool, f: Flag, rest: seq<Flag>)
    requires Ranked(rest) && Above(Rank(f), rest)
    ensures Ranked(Optional(present, f) + rest)
    ensures Above(Rank(f) - 1, Optional(present, f) + rest)
  {
    var flags := Optional(present, f) + rest;
    if present {
      assert forall i :: 1 <= i < |flags| ==> flags[i] == rest[i - 1];
    } else {
      assert flags == rest;
    }
  }

  /** The flags come in the order `buildPackage` pushes them, each at most once. */
  lemma BuildFlagsOrdered(buildVignettes: bool, resaveData: bool, md5: bool, user: Option<string>)
    ensures Ranked(BuildFlags(buildVignettes, resaveData, md5, user))
  {
    var d := UserFlag(user);
    var c := Optional(md5, Md5) + d;
    var b := Optional(!resaveData, NoResaveData) + c;
    OptionalPrefix(md5, Md5, d);
    OptionalPrefix(!resaveData, NoResaveData, c);
    OptionalPrefix(!buildVignettes, NoBuildVignettes, b);
  }

  /** Rendering keeps flags apart: different flags have different texts. */
  lemma RenderInjective(f: Flag, g: Flag)
    requires Render(f) == Render(g)
    ensures f == g
  {
    assert Render(f)[2] == Render(g)[2];
    assert |Render(f)| == |Render(g)|;
    if f.User? && g.User? {
      assert f.name == Render(f)[|UserPrefix|..];
    }
  }

  /** The texts of the flags, in order. */
  function RenderAll(flags: seq<Flag>): (texts: seq<string>)
    ensures |texts| == |flags|
    ensures forall i :: 0 <= i < |flags| ==> texts[i] == Render(flags[i])
  {
    if |flags| == 0 then [] else [Render(flags[0])] + RenderAll(flags[1..])
  }

  /** A text is among the rendered flags exactly when its flag is. */
  lemma RenderAllHas(flags: seq<Flag>, f: Flag)
    ensures Render(f) in RenderAll(flags) <==> f in flags
  {
    var texts := RenderAll(flags);
    if Render(f) in texts {
      var i :| 0 <= i < |texts| && texts[i] == Render(f);
      RenderInjective(f, flags[i]);
    }
    if f in flags {
      var i :| 0 <= i < |flags| && flags[i] == f;
      assert texts[i] == Render(f);
    }
  }

  /** The argument list of `buildPackage` in `index.js`: the base command,
      then the texts of the flags. */
  function BuildArgs(buildVignettes: bool, resaveData: bool, md5: bool, user: Option<string>): (args: seq<string>)
    ensures |args| >= 4 && args[..4] == BaseCommand
  {
    BaseCommand + RenderAll(BuildFlags(buildVignettes, resaveData, md5, user))
  }

  /** After the base command comes the text of every flag the options ask
      for, and of no other flag. */
  lemma BuildArgsWanted(buildVignettes: bool, resaveData: bool, md5: bool, user: Option<string>)
    ensures forall f :: Render(f) in BuildArgs(buildVignettes, resaveData, md5, user)[4..] <==>
              Wanted(buildVignettes, resaveData, md5, user, f)
  {
    var flags := BuildFlags(buildVignettes, resaveData, md5, user);
    var args := BuildArgs(buildVignettes, resaveData, md5, user);
    assert args[4..] == RenderAll(flags);
    forall f
      ensures Render(f) in args[4..] <==> Wanted(buildVignettes, resaveData, md5, user, f)
    {
      RenderAllHas(flags, f);
      BuildFlagsWanted(buildVignettes, resaveData, md5, user, f);
    }
  }

  /** On the command line: `--no-build-vignettes` iff vignettes are not built,
      `--no-resave-data` iff data is not resaved, `--md5` iff asked for, and
      `--user=<u>` iff a non-empty user `u` is given. */
  lemma BuildArgsOptions(buildVignettes: bool, resaveData: bool, md5: bool, user: Option<string>)
    ensures var tail := BuildArgs(buildVignettes, resaveData, md5, user)[4..];
            && ("--no-build-vignettes" in tail <==> !buildVignettes)
            && ("--no-resave-data" in tail <==> !resaveData)
            && ("--md5" in tail <==> md5)
            && (user.Some? ==> (UserPrefix + user.value in tail <==> user.value != ""))
  {
    BuildArgsWanted(buildVignettes, resaveData, md5, user);
    assert Render(NoBuildVignettes) == "--no-build-vignettes";
    assert Render(NoResaveData) == "--no-resave-data";
    assert Render(Md5) == "--md5";
    if user.Some? {
      assert Render(User(user.value)) == UserPrefix + user.value;
    }
  }

  /** The argument list determines the options it was built from (an absent
      and an empty user give the same list). */
  lemma BuildArgsDetermineOptions(vignettes1: bool, resave1: bool, md5a: bool, user1: Option<string>,
                                  vignettes2: bool, resave2: bool, md5b: bool, user2: Option<string>)
    requires BuildArgs(vignettes1, resave1, md5a, user1) == BuildArgs(vignettes2, resave2, md5b, user2)
    ensures vignettes1 == vignettes2 && resave1 == resave2 && md5a == md5b
    ensures UserGiven(user1) == UserGiven(user2)
    ensures UserGiven(user1) ==> user1.value == user2.value
  {
    BuildArgsWanted(vignettes1, resave1, md5a, user1);
    BuildArgsWanted(vignettes2, resave2, md5b, user2);
    var tail := BuildArgs(vignettes1, resave1, md5a, user1)[4..];
    assert Render(NoBuildVignettes) in tail <==> !vignettes1 && !vignettes2;
    assert Render(NoResaveData) in tail <==> !resave1 && !resave2;
    assert Render(Md5) in tail <==> md5a && md5b;
    if UserGiven(user1) {
      assert Render(User(user1.value)) in tail;
    }
    if UserGiven(user2) {
      assert Render(User(user2.value)) in tail;
    }
  }

  /** The top-level script of `index.js` calls `buildPackage` without its `user` argument, so the
      action never passes `--user=`, whatever user name is configured. */
  lemma ActionNeverPassesUser(buildVignettes: bool, resaveData: bool, md5: bool, name: string)
    ensures UserPrefix + name !in BuildArgs(buildVignettes, resaveData, md5, None)
  {
    BuildArgsWanted(buildVignettes, resaveData, md5, None);
    var args := BuildArgs(buildVignettes, resaveData, md5, None);
    assert Render(User(name)) == UserPrefix + name;
    assert args == args[..4] + args[4..];
    assert (UserPrefix + name)[0] == '-';
  }

  /** No options give the bare command. */
  lemma BareArgsExample()
    ensures BuildArgs(true, true, false, None) == ["R", "CMD", "build", "."]
  {
    assert BuildFlags(true, true, false, None) == [];
    assert BaseCommand + [] == BaseCommand;
  }

  lemma AllFlags()
    ensures BuildFlags(false, false, true, Some("ci")) == [NoBuildVignettes, NoResaveData, Md5, User("ci")]
  {
    assert UserFlag(Some("ci")) == [User("ci")];
  }

  lemma AllTexts()
    ensures RenderAll([NoBuildVignettes, NoResaveData, Md5, User("ci")]) ==
              ["--no-build-vignettes", "--no-resave-data", "--md5", "--user=ci"]
  {
    var texts := RenderAll([NoBuildVignettes, NoResaveData, Md5, User("ci")]);
    assert UserPrefix + "ci" == "--user=ci";
    assert texts[0] == "--no-build-vignettes" && texts[1] == "--no-resave-data";
    assert texts[2] == "--md5" && texts[3] == "--user=ci";
  }

  /** Every option gives every flag, in order. */
  lemma AllArgsExample()
    ensures BuildArgs(false, false, true, Some("ci")) ==
              ["R", "CMD", "build", ".", "--no-build-vignettes", "--no-resave-data", "--md5", "--user=ci"]
  {
    AllFlags();
    AllTexts();
  }

  /** An empty user is left out, like an absent one. */
  lemma EmptyUserArgsExample()
    ensures BuildArgs(true, true, true, Some("")) == ["R", "CMD", "build", ".", "--md5"]
  {
    assert BuildFlags(true, true, true, Some("")) == [Md5];
    assert RenderAll([Md5]) == ["--md5"];
  }

  // ---------------------------------------------------------------------
  // Finding the tarball
  // ---------------------------------------------------------------------

  /** A directory entry as `readdirSync` names it and `statSync` classifies it. */
  datatype DirEntry = DirEntry(name: string, isFile: bool)

  /** The name filter of `getTarballs`. */
  predicate IsTarball(name: string) {
    EndsWith(name, ".tar.gz")
  }

  /** `getTarballs`: the names of the regular files ending in `.tar.gz`. */
  function Tarballs(listing: seq<DirEntry>): (names: set<string>)
    ensures forall n :: n in names ==> IsTarball(n)
    ensures forall i :: 0 <= i < |listing| && listing[i].isFile && IsTarball(listing[i].name) ==>
              listing[i].name in names
    ensures forall n :: n in names ==> exists i :: 0 <= i < |listing| && listing[i].isFile && listing[i].name == n
  {
    set i | 0 <= i < |listing| && listing[i].isFile && IsTarball(listing[i].name) :: listing[i].name
  }

  /** The build must add exactly one tarball; the error carries whatever was added. */
  datatype ArtifactError = NotExactlyOneTarball(created: set<string>)

  lemma SingletonElement(s: set<string>, x: string)
    requires |s| == 1 && x in s
    ensures s == {x}
  {
    assert |s - {x}| == 0;
  }

  /** The check after the build in `index.js`: the tarballs present after the build and not before
      must be exactly one, which is the result. */
  function NewTarball(before: set<string>, after: set<string>): (r: Result<string, ArtifactError>)
    ensures r.Success? <==> |after - before| == 1
    ensures r.Success? ==> after - before == {r.value}
    ensures r.Failure? ==> r.error == NotExactlyOneTarball(after - before)
  {
    var diff := after - before;
    if |diff| != 1 then Failure(NotExactlyOneTarball(diff))
    else
      var x :| x in diff;
      SingletonElement(diff, x);
      Success(x)
  }

  /** The reported tarball is a regular `.tar.gz` file of the directory after
      the build that was not a tarball of the directory before it. */
  lemma ReportedTarballIsNew(before: seq<DirEntry>, after: seq<DirEntry>)
    requires NewTarball(Tarballs(before), Tarballs(after)).Success?
    ensures var name := NewTarball(Tarballs(before), Tarballs(after)).value;
            && IsTarball(name)
            && (exists i :: 0 <= i < |after| && after[i].isFile && after[i].name == name)
            && forall i :: 0 <= i < |before| && before[i].isFile ==> before[i].name != name
  {
    var name := NewTarball(Tarballs(before), Tarballs(after)).value;
    assert name in Tarballs(after) - Tarballs(before);
  }

  /** One new tarball is reported; two new tarballs are an error carrying both;
      an old tarball and a non-tarball file are ignored. */
  lemma NewTarballExamples()
    ensures NewTarball({}, {"pkg_1.0.tar.gz"}) == Success("pkg_1.0.tar.gz")
    ensures NewTarball({}, {"a.tar.gz", "b.tar.gz"}) ==
              Failure(NotExactlyOneTarball({"a.tar.gz", "b.tar.gz"}))
    ensures NewTarball({"old.tar.gz"}, {"old.tar.gz"}) == Failure(NotExactlyOneTarball({}))
    ensures Tarballs([DirEntry("pkg_1.0.tar.gz", true), DirEntry("notes.txt", true),
                      DirEntry("dir.tar.gz", false)]) == {"pkg_1.0.tar.gz"}
  {
    var one := NewTarball({}, {"pkg_1.0.tar.gz"});
    assert {"pkg_1.0.tar.gz"} - {} == {"pkg_1.0.tar.gz"};
    var two: set<string> := {"a.tar.gz", "b.tar.gz"};
    assert "a.tar.gz" != "b.tar.gz";
    assert two - {} == two;
    assert |two| == 2;
    assert {"old.tar.gz"} - {"old.tar.gz"} == {};
    var listing := [DirEntry("pkg_1.0.tar.gz", true), DirEntry("notes.txt", true),
                    DirEntry("dir.tar.gz", false)];
    assert IsTarball("pkg_1.0.tar.gz");
    assert !IsTarball("notes.txt");
    assert listing[0].name in Tarballs(listing);
  }
}
