/** Command discovery and the command help listing of the console front end
    (deluge/ui/console/console.py). The directory listing and the import of
    a command module are inputs: `Listing` is what `os.listdir` gave, and
    `load(name)` is the `Command` object the module `name` provides. */
module Console {
  import opened PyStr
  import opened ConsoleMain

  /** The result of listing the command directory: its file names, or the
      `OSError` the listing raised. */
  datatype Listing = Listed(names: seq<string>) | Unreadable

  // ---------------------------------------------------------------------
  // load_commands

  /** `filename.split('.')[0]`: the segment the exclude list is checked on. */
  function FirstSegment(f: string): string {
    Split(f, '.')[0]
  }

  /** `filename.split('.')[len(...) - 2]`: the module, hence command, name.
      A name without a dot has one segment, and Python reads index -1 as
      the last one. */
  function CommandName(f: string): string {
    var parts := Split(f, '.');
    if |parts| >= 2 then parts[|parts| - 2] else parts[|parts| - 1]
  }

  /** Files left out by name: an excluded first segment or a leading `_`. */
  predicate Skipped(f: string, exclude: seq<string>) {
    FirstSegment(f) in exclude || StartsWith(f, "_")
  }

  /** Files that can hold a command module. */
  predicate IsModuleFile(f: string) {
    EndsWith(f, ".py") || EndsWith(f, ".pyc")
  }

  predicate Accepted(f: string, exclude: seq<string>) {
    !Skipped(f, exclude) && IsModuleFile(f)
  }

  /** The files whose module is imported, in listing order. */
  function LoadedFiles(files: seq<string>, exclude: seq<string>): seq<string> {
    if |files| == 0 then []
    else
      var last := files[|files| - 1];
      LoadedFiles(files[..|files| - 1], exclude) + (if Accepted(last, exclude) then [last] else [])
  }

  /** `(key, c)` for each key, in order. */
  function Pairs(keys: seq<string>, c: Command): seq<(string, Command)> {
    if |keys| == 0 then []
    else Pairs(keys[..|keys| - 1], c) + [(keys[|keys| - 1], c)]
  }

  /** The entries one loaded file contributes: its command under the
      command name, then under each declared alias. */
  function FileEntries(f: string, load: string -> Command): seq<(string, Command)> {
    var name := CommandName(f);
    var c := load(name);
    Pairs([name] + c.aliases, c)
  }

  /** The list `commands` that the loop builds from the loaded files. */
  function EntriesOf(loaded: seq<string>, load: string -> Command): seq<(string, Command)> {
    if |loaded| == 0 then []
    else EntriesOf(loaded[..|loaded| - 1], load) + FileEntries(loaded[|loaded| - 1], load)
  }

  /** `dict(pairs)`: every key bound to the value of its last pair. */
  function DictOf(pairs: seq<(string, Command)>): map<string, Command> {
    if |pairs| == 0 then map[]
    else DictOf(pairs[..|pairs| - 1])[pairs[|pairs| - 1].0 := pairs[|pairs| - 1].1]
  }

  /** The command table `load_commands` returns for a listing. */
  function Registry(listing: Listing, exclude: seq<string>, load: string -> Command): map<string, Command> {
    match listing
    case Unreadable => map[]
    case Listed(files) => DictOf(EntriesOf(LoadedFiles(files, exclude), load))
  }

  /** One more file of the listing: it adds itself when it passes the
      filters. */
  lemma LoadedFilesStep(files: seq<string>, i: nat, exclude: seq<string>)
    requires i < |files|
    ensures LoadedFiles(files[..i + 1], exclude) ==
            LoadedFiles(files[..i], exclude) + (if Accepted(files[i], exclude) then [files[i]] else [])
  {
    assert files[..i + 1][..i] == files[..i];
  }

  /** One more loaded file: its entries come after all earlier ones. */
  lemma EntriesOfStep(loaded: seq<string>, f: string, load: string -> Command)
    ensures EntriesOf(loaded + [f], load) == EntriesOf(loaded, load) + FileEntries(f, load)
  {
    assert (loaded + [f])[..|loaded|] == loaded;
  }

  /** The inner loop of `load_commands`: appends `(key, cmd)` for each key. */
  method AppendEntries(commands: seq<(string, Command)>, keys: seq<string>, cmd: Command)
    returns (extended: seq<(string, Command)>)
    ensures extended == commands + Pairs(keys, cmd)
  {
    extended := commands;
    var j := 0;
    while j < |keys|
      invariant 0 <= j <= |keys|
      invariant extended == commands + Pairs(keys[..j], cmd)
    {
      assert keys[..j + 1][..j] == keys[..j];
      extended := extended + [(keys[j], cmd)];
      j := j + 1;
    }
    assert keys[..j] == keys;
  }

  /** `load_commands`: walks the listing, skips private, excluded and
      non-module files, imports the command of each remaining file, records it
      under its name and its aliases, and turns the records into a table. */
  method LoadCommands(listing: Listing, exclude: seq<string>, load: string -> Command)
    returns (cmds: map<string, Command>)
    ensures cmds == Registry(listing, exclude, load)
  {
    if listing.Unreadable? {
      return map[];
    }
    var files := listing.names;
    var commands: seq<(string, Command)> := [];
    var i := 0;
    while i < |files|
      invariant 0 <= i <= |files|
      invariant commands == EntriesOf(LoadedFiles(files[..i], exclude), load)
    {
      var filename := files[i];
      LoadedFilesStep(files, i, exclude);
      EntriesOfStep(LoadedFiles(files[..i], exclude), filename, load);
      if Skipped(filename, exclude) {
        assert LoadedFiles(files[..i + 1], exclude) == LoadedFiles(files[..i], exclude);
        i := i + 1;
        continue;
      }
      if !IsModuleFile(filename) {
        assert LoadedFiles(files[..i + 1], exclude) == LoadedFiles(files[..i], exclude);
        i := i + 1;
        continue;
      }
      var name := CommandName(filename);
      var cmd := load(name);
      commands := AppendEntries(commands, [name] + cmd.aliases, cmd);
      assert commands == EntriesOf(LoadedFiles(files[..i], exclude), load) + FileEntries(filename, load);
      i := i + 1;
    }
    assert files[..i] == files;
    cmds := DictOf(commands);
  }

  // ---------------------------------------------------------------------
  // Properties of the file name rules

  /** For a file name made of dot-free segments, the exclude list looks at
      the first segment and the command is named after the one before the
      extension. */
  lemma ModuleFileNames(parts: seq<string>)
    requires |parts| >= 2
    requires forall i :: 0 <= i < |parts| ==> '.' !in parts[i]
    ensures FirstSegment(Join(parts, ".")) == parts[0]
    ensures CommandName(Join(parts, ".")) == parts[|parts| - 2]
  {
    SplitJoin(parts, '.');
  }

  /** `add.py` is checked and named as `add`; `a.b.py` is checked as `a`
      and named `b`. */
  lemma FileNameExamples()
    ensures FirstSegment("add.py") == "add" && CommandName("add.py") == "add"
    ensures FirstSegment("a.b.py") == "a" && CommandName("a.b.py") == "b"
  {
    ModuleFileNames(["add", "py"]);
    assert ["add", "py"][1..] == ["py"];
    assert Join(["add", "py"], ".") == "add.py";
    ModuleFileNames(["a", "b", "py"]);
    assert ["a", "b", "py"][1..] == ["b", "py"];
    assert ["b", "py"][1..] == ["py"];
    assert Join(["a", "b", "py"], ".") == "a.b.py";
  }

  /** A file that passes the filters has a dot, so its command name is the
      second-to-last segment. */
  lemma AcceptedFileName(f: string, exclude: seq<string>)
    requires Accepted(f, exclude)
    ensures |Split(f, '.')| >= 2
    ensures CommandName(f) == Split(f, '.')[|Split(f, '.')| - 2]
  {
    if EndsWith(f, ".py") {
      assert f[|f| - 3..][0] == '.';
      assert f[|f| - 3] == '.';
    } else {
      assert f[|f| - 4..][0] == '.';
      assert f[|f| - 4] == '.';
    }
    SplitHasTwoPieces(f, '.');
  }

  /** A file's module is imported exactly when the file is in the listing,
      is neither private nor excluded, and ends in `.py` or `.pyc`. */
  lemma {:induction false} LoadedFilesExactly(files: seq<string>, exclude: seq<string>, f: string)
    ensures f in LoadedFiles(files, exclude) <==> f in files && Accepted(f, exclude)
  {
    if |files| > 0 {
      var n := |files| - 1;
      LoadedFilesExactly(files[..n], exclude, f);
      assert files == files[..n] + [files[n]];
    }
  }

  // ---------------------------------------------------------------------
  // Properties of the entries and of the table

  lemma {:induction false} PairsShape(keys: seq<string>, c: Command)
    ensures |Pairs(keys, c)| == |keys|
    ensures forall i :: 0 <= i < |keys| ==> Pairs(keys, c)[i] == (keys[i], c)
  {
    if |keys| > 0 {
      PairsShape(keys[..|keys| - 1], c);
    }
  }

  /** A loaded file contributes its command first under the command name,
      then under each alias in declaration order. */
  lemma FileEntriesOrder(f: string, load: string -> Command)
    ensures var c := load(CommandName(f));
            var e := FileEntries(f, load);
            |e| == 1 + |c.aliases| && e[0] == (CommandName(f), c) &&
            forall i :: 0 <= i < |c.aliases| ==> e[i + 1] == (c.aliases[i], c)
  {
    var c := load(CommandName(f));
    PairsShape([CommandName(f)] + c.aliases, c);
  }

  /** Whether `k` is the name or one of the aliases of the command that file
      `f` provides. */
  predicate Declares(f: string, load: string -> Command, k: string) {
    k == CommandName(f) || k in load(CommandName(f)).aliases
  }

  lemma PairsMembership(keys: seq<string>, c: Command, p: (string, Command))
    ensures p in Pairs(keys, c) <==> p.0 in keys && p.1 == c
  {
    PairsShape(keys, c);
    if p.0 in keys && p.1 == c {
      var i :| 0 <= i < |keys| && keys[i] == p.0;
      assert Pairs(keys, c)[i] == p;
    }
  }

  /** An entry is recorded exactly when some loaded file provides that
      command and declares that key for it. */
  lemma {:induction false} EntriesOfMembership(loaded: seq<string>, load: string -> Command, p: (string, Command))
    ensures p in EntriesOf(loaded, load) <==>
            exists f :: f in loaded && p.1 == load(CommandName(f)) && Declares(f, load, p.0)
  {
    if |loaded| > 0 {
      var n := |loaded| - 1;
      var g := loaded[n];
      EntriesOfMembership(loaded[..n], load, p);
      PairsMembership([CommandName(g)] + load(CommandName(g)).aliases, load(CommandName(g)), p);
      assert loaded == loaded[..n] + [g];
      if p in FileEntries(g, load) {
        assert g in loaded;
      }
    }
  }

  /** Every key comes from some pair. */
  lemma {:induction false} DictKeys(ps: seq<(string, Command)>, k: string)
    ensures k in DictOf(ps) <==> exists i :: 0 <= i < |ps| && ps[i].0 == k
  {
    if |ps| > 0 {
      var n := |ps| - 1;
      DictKeys(ps[..n], k);
      assert forall i :: 0 <= i < n ==> ps[..n][i] == ps[i];
    }
  }

  /** The last pair with a key decides that key's value. */
  lemma {:induction false} DictLastWins(ps: seq<(string, Command)>, i: nat)
    requires i < |ps|
    requires forall j :: i < j < |ps| ==> ps[j].0 != ps[i].0
    ensures ps[i].0 in DictOf(ps) && DictOf(ps)[ps[i].0] == ps[i].1
  {
    var n := |ps| - 1;
    if i < n {
      DictLastWins(ps[..n], i);
    }
  }

  /** Every binding of the table is one of the pairs. */
  lemma {:induction false} DictBindingIsAPair(ps: seq<(string, Command)>, k: string)
    requires k in DictOf(ps)
    ensures (k, DictOf(ps)[k]) in ps
  {
    var n := |ps| - 1;
    if ps[n].0 != k {
      DictBindingIsAPair(ps[..n], k);
      assert forall p :: p in ps[..n] ==> p in ps;
    }
  }

  /** No two entries share a key. */
  predicate DistinctKeys(ps: seq<(string, Command)>) {
    forall i, j :: 0 <= i < j < |ps| ==> ps[i].0 != ps[j].0
  }

  /** With no shared keys, every pair is a binding of the table. */
  lemma DictOfDistinct(ps: seq<(string, Command)>, p: (string, Command))
    requires DistinctKeys(ps)
    requires p in ps
    ensures p.0 in DictOf(ps) && DictOf(ps)[p.0] == p.1
  {
    var i :| 0 <= i < |ps| && ps[i] == p;
    DictLastWins(ps, i);
  }

  /** The table's keys are exactly the names and aliases of the commands of
      the files that pass the filters; an unreadable directory gives none. */
  lemma RegistryKeys(files: seq<string>, exclude: seq<string>, load: string -> Command, k: string)
    ensures k in Registry(Listed(files), exclude, load) <==>
            exists f :: f in files && Accepted(f, exclude) && Declares(f, load, k)
    ensures Registry(Unreadable, exclude, load) == map[]
  {
    var loaded := LoadedFiles(files, exclude);
    var e := EntriesOf(loaded, load);
    DictKeys(e, k);
    if k in DictOf(e) {
      var i :| 0 <= i < |e| && e[i].0 == k;
      EntriesOfMembership(loaded, load, e[i]);
      var f :| f in loaded && e[i].1 == load(CommandName(f)) && Declares(f, load, k);
      LoadedFilesExactly(files, exclude, f);
    }
    if f :| f in files && Accepted(f, exclude) && Declares(f, load, k) {
      LoadedFilesExactly(files, exclude, f);
      var p := (k, load(CommandName(f)));
      EntriesOfMembership(loaded, load, p);
      var i :| 0 <= i < |e| && e[i] == p;
    }
  }

  /** Every key maps to the command of a loaded file for which the key is
      its file-derived name or one of its aliases. */
  lemma RegistryValues(files: seq<string>, exclude: seq<string>, load: string -> Command, k: string)
    requires k in Registry(Listed(files), exclude, load)
    ensures exists f :: f in files && Accepted(f, exclude) &&
              Registry(Listed(files), exclude, load)[k] == load(CommandName(f)) &&
              (k == CommandName(f) || k in Registry(Listed(files), exclude, load)[k].aliases)
  {
    var loaded := LoadedFiles(files, exclude);
    var e := EntriesOf(loaded, load);
    var r := DictOf(e);
    DictBindingIsAPair(e, k);
    EntriesOfMembership(loaded, load, (k, r[k]));
    var f :| f in loaded && r[k] == load(CommandName(f)) && Declares(f, load, k);
    LoadedFilesExactly(files, exclude, f);
  }

  /** `dict(a + b)`: the records of `b` override those of `a`. */
  lemma {:induction false} DictOfAppend(a: seq<(string, Command)>, b: seq<(string, Command)>)
    ensures DictOf(a + b) == DictOf(a) + DictOf(b)
  {
    if |b| == 0 {
      assert a + b == a;
    } else {
      var n := |b| - 1;
      assert (a + b)[..|a + b| - 1] == a + b[..n];
      assert (a + b)[|a + b| - 1] == b[n];
      DictOfAppend(a, b[..n]);
    }
  }

  /** The records of one command give exactly its keys, each bound to it. */
  lemma {:induction false} DictOfPairs(keys: seq<string>, c: Command)
    ensures forall k :: k in DictOf(Pairs(keys, c)) <==> k in keys
    ensures forall k :: k in DictOf(Pairs(keys, c)) ==> DictOf(Pairs(keys, c))[k] == c
  {
    if |keys| > 0 {
      var n := |keys| - 1;
      DictOfPairs(keys[..n], c);
      assert keys == keys[..n] + [keys[n]];
    }
  }

  /** One more loaded file: its records override the table built so far. */
  lemma DictOfFileAppended(l: seq<string>, g: string, load: string -> Command)
    ensures DictOf(EntriesOf(l + [g], load)) == DictOf(EntriesOf(l, load)) + DictOf(FileEntries(g, load))
  {
    EntriesOfStep(l, g, load);
    DictOfAppend(EntriesOf(l, load), FileEntries(g, load));
  }

  /** The records of one file bind exactly the keys it declares, each to
      its command. */
  lemma FileEntriesDict(g: string, load: string -> Command, k: string)
    ensures k in DictOf(FileEntries(g, load)) <==> Declares(g, load, k)
    ensures k in DictOf(FileEntries(g, load)) ==> DictOf(FileEntries(g, load))[k] == load(CommandName(g))
  {
    var c := load(CommandName(g));
    DictOfPairs([CommandName(g)] + c.aliases, c);
  }

  /** Whatever the other files declare, a key gets the command of the last
      accepted file in listing order that declares it. */
  lemma {:induction false} RegistryLastFileWins(files: seq<string>, exclude: seq<string>, load: string -> Command,
                                                i: nat, k: string)
    requires i < |files| && Accepted(files[i], exclude) && Declares(files[i], load, k)
    requires forall j :: i < j < |files| && Accepted(files[j], exclude) ==> !Declares(files[j], load, k)
    ensures k in Registry(Listed(files), exclude, load)
    ensures Registry(Listed(files), exclude, load)[k] == load(CommandName(files[i]))
  {
    var n := |files| - 1;
    var front, g := files[..n], files[n];
    var c := load(CommandName(files[i]));
    LoadedFilesStep(files, n, exclude);
    assert files[..n + 1] == files;
    var l := LoadedFiles(front, exclude);
    var r := Registry(Listed(files), exclude, load);
    FileEntriesDict(g, load, k);
    if i < n {
      assert forall j :: i < j < n ==> front[j] == files[j];
      RegistryLastFileWins(front, exclude, load, i, k);
      var r0 := DictOf(EntriesOf(l, load));
      assert k in r0 && r0[k] == c;
      if Accepted(g, exclude) {
        assert LoadedFiles(files, exclude) == l + [g];
        DictOfFileAppended(l, g, load);
        assert k !in DictOf(FileEntries(g, load));
        assert r == r0 + DictOf(FileEntries(g, load));
      } else {
        assert LoadedFiles(files, exclude) == l;
        assert r == r0;
      }
    } else {
      assert LoadedFiles(files, exclude) == l + [g];
      DictOfFileAppended(l, g, load);
      assert r == DictOf(EntriesOf(l, load)) + DictOf(FileEntries(g, load));
    }
  }

  /** No key is declared by two different modules. Each module gives its
      own command instance, so two modules clash on a shared key even when
      their commands carry the same docstring, usage and aliases. The same
      module found twice, as `add.py` and `add.pyc`, clashes with nothing. */
  ghost predicate NoKeyClash(files: seq<string>, exclude: seq<string>, load: string -> Command) {
    forall f, g, k :: f in files && g in files && Accepted(f, exclude) && Accepted(g, exclude) &&
                      Declares(f, load, k) && Declares(g, load, k) ==>
                        CommandName(f) == CommandName(g)
  }

  /** When no key clashes, a key a loaded file declares gives that file's
      command. */
  lemma RegistryFindsDeclaredKey(files: seq<string>, exclude: seq<string>, load: string -> Command,
                                 f: string, k: string)
    requires NoKeyClash(files, exclude, load)
    requires f in files && Accepted(f, exclude) && Declares(f, load, k)
    ensures k in Registry(Listed(files), exclude, load)
    ensures Registry(Listed(files), exclude, load)[k] == load(CommandName(f))
  {
    var r := Registry(Listed(files), exclude, load);
    RegistryKeys(files, exclude, load, k);
    RegistryValues(files, exclude, load, k);
    var g :| g in files && Accepted(g, exclude) && r[k] == load(CommandName(g)) &&
             (k == CommandName(g) || k in r[k].aliases);
    assert Declares(g, load, k);
  }

  /** When no key clashes, a command is found under its name and under
      every one of its aliases. */
  lemma RegistryResolvesAliases(files: seq<string>, exclude: seq<string>, load: string -> Command, f: string)
    requires NoKeyClash(files, exclude, load)
    requires f in files && Accepted(f, exclude)
    ensures var r := Registry(Listed(files), exclude, load);
            var c := load(CommandName(f));
            CommandName(f) in r && r[CommandName(f)] == c &&
            forall a :: a in c.aliases ==> a in r && r[a] == c
  {
    var c := load(CommandName(f));
    RegistryFindsDeclaredKey(files, exclude, load, f, CommandName(f));
    forall a | a in c.aliases
      ensures a in Registry(Listed(files), exclude, load) && Registry(Listed(files), exclude, load)[a] == c
    {
      RegistryFindsDeclaredKey(files, exclude, load, f, a);
    }
  }

  /** Two files that name the same module declare the same keys for the
      same command, so no key clashes between them. */
  lemma SameModuleNoClash(f: string, g: string, exclude: seq<string>, load: string -> Command)
    requires CommandName(f) == CommandName(g)
    ensures NoKeyClash([f, g], exclude, load)
  {
    forall x, y, k | x in [f, g] && y in [f, g] && Accepted(x, exclude) && Accepted(y, exclude) &&
                     Declares(x, load, k) && Declares(y, load, k)
      ensures load(CommandName(x)) == load(CommandName(y))
    {
      assert x == f || x == g;
      assert y == f || y == g;
    }
  }

  lemma LoadedFilesBoth(f: string, g: string, exclude: seq<string>)
    requires Accepted(f, exclude) && Accepted(g, exclude)
    ensures LoadedFiles([f, g], exclude) == [f, g]
  {
    var files := [f, g];
    LoadedFilesStep(files, 0, exclude);
    LoadedFilesStep(files, 1, exclude);
    assert files[..0] == [] && files[..1] == [f] && files[..2] == files;
  }

  lemma EntriesOfBoth(f: string, g: string, load: string -> Command)
    ensures EntriesOf([f, g], load) == FileEntries(f, load) + FileEntries(g, load)
  {
    EntriesOfStep([], f, load);
    EntriesOfStep([f], g, load);
    assert [] + [f] == [f];
    assert [f] + [g] == [f, g];
  }

  /** Two accepted files that name the same module record its name twice,
      so the records do not have distinct keys. */
  lemma SameModuleTwice(f: string, g: string, exclude: seq<string>, load: string -> Command)
    requires Accepted(f, exclude) && Accepted(g, exclude) && CommandName(f) == CommandName(g)
    ensures !DistinctKeys(EntriesOf(LoadedFiles([f, g], exclude), load))
  {
    LoadedFilesBoth(f, g, exclude);
    EntriesOfBoth(f, g, load);
    var ef, eg := FileEntries(f, load), FileEntries(g, load);
    FileEntriesOrder(f, load);
    FileEntriesOrder(g, load);
    var e := ef + eg;
    assert e[0] == ef[0] && e[|ef|] == eg[0];
    assert 0 < |ef| < |e|;
  }

  /** An installed command directory lists a module both as source and as
      bytecode: `add.py` and `add.pyc` record `add` twice, so the keys are
      not distinct, yet no key clashes. */
  lemma PyAndPycListing(load: string -> Command)
    ensures NoKeyClash(["add.py", "add.pyc"], [], load)
    ensures !DistinctKeys(EntriesOf(LoadedFiles(["add.py", "add.pyc"], []), load))
  {
    PyAndPycNames();
    PlainModuleAccepted("add.py");
    BytecodeModuleAccepted("add.pyc");
    SameModuleNoClash("add.py", "add.pyc", [], load);
    SameModuleTwice("add.py", "add.pyc", [], load);
  }

  lemma PyAndPycNames()
    ensures CommandName("add.py") == "add" && CommandName("add.pyc") == "add"
  {
    ModuleFileNames(["add", "py"]);
    assert ["add", "py"][1..] == ["py"];
    assert Join(["add", "py"], ".") == "add.py";
    ModuleFileNames(["add", "pyc"]);
    assert ["add", "pyc"][1..] == ["pyc"];
    assert Join(["add", "pyc"], ".") == "add.pyc";
  }

  /** Two different modules whose commands carry the same docstring, usage
      and aliases are still two commands: `foo.py` and `bar.py` sharing the
      alias `x` clash, and `dict()` gives `x` to `bar`'s instance. */
  lemma EqualMetadataStillClashes(load: string -> Command)
    requires load("foo") == load("bar") && "x" in load("foo").aliases
    ensures !NoKeyClash(["foo.py", "bar.py"], [], load)
  {
    FooBarNames();
    PlainModuleAccepted("foo.py");
    PlainModuleAccepted("bar.py");
    DifferentModulesClash("foo.py", "bar.py", [], load, "x");
  }

  /** Two accepted files of different modules that declare the same key
      clash on it. */
  lemma DifferentModulesClash(f: string, g: string, exclude: seq<string>, load: string -> Command, k: string)
    requires Accepted(f, exclude) && Accepted(g, exclude) && CommandName(f) != CommandName(g)
    requires Declares(f, load, k) && Declares(g, load, k)
    ensures !NoKeyClash([f, g], exclude, load)
  {
    assert f in [f, g] && g in [f, g];
  }

  lemma FooBarNames()
    ensures CommandName("foo.py") == "foo" && CommandName("bar.py") == "bar"
  {
    ModuleFileNames(["foo", "py"]);
    assert ["foo", "py"][1..] == ["py"];
    assert Join(["foo", "py"], ".") == "foo.py";
    ModuleFileNames(["bar", "py"]);
    assert ["bar", "py"][1..] == ["py"];
    assert Join(["bar", "py"], ".") == "bar.py";
  }

  /** A `.pyc` file whose name does not start with `_` is loaded when
      nothing is excluded. */
  lemma BytecodeModuleAccepted(f: string)
    requires |f| > 4 && f[|f| - 4..] == ".pyc" && f[0] != '_'
    ensures Accepted(f, [])
  {
  }

  /** A `.py` file whose name does not start with `_` is loaded when
      nothing is excluded. */
  lemma PlainModuleAccepted(f: string)
    requires |f| > 3 && f[|f| - 3..] == ".py" && f[0] != '_'
    ensures Accepted(f, [])
  {
  }

  /** A file whose name starts with `_` is never loaded. */
  lemma PrivateFileSkipped(f: string, exclude: seq<string>)
    requires |f| > 0 && f[0] == '_'
    ensures !Accepted(f, exclude)
  {
    assert f[..1] == "_";
  }

  /** Three listed files of which the first is skipped. */
  lemma LoadedFilesSkippingFirst(x: string, y: string, z: string, exclude: seq<string>)
    requires !Accepted(x, exclude) && Accepted(y, exclude) && Accepted(z, exclude)
    ensures LoadedFiles([x, y, z], exclude) == [y, z]
  {
    var files := [x, y, z];
    LoadedFilesStep(files, 0, exclude);
    LoadedFilesStep(files, 1, exclude);
    LoadedFilesStep(files, 2, exclude);
    assert files[..0] == [] && files[..3] == files;
  }

  /** The listing of the scenario below: `__init__.py` is private, the two
      module files are loaded in order. */
  lemma ScenarioLoadedFiles()
    ensures LoadedFiles(["__init__.py", "add.py", "pause.py"], []) == ["add.py", "pause.py"]
  {
    PrivateFileSkipped("__init__.py", []);
    PlainModuleAccepted("add.py");
    PlainModuleAccepted("pause.py");
    LoadedFilesSkippingFirst("__init__.py", "add.py", "pause.py", []);
  }

  lemma ScenarioNames()
    ensures CommandName("add.py") == "add" && CommandName("pause.py") == "pause"
  {
    ModuleFileNames(["add", "py"]);
    assert ["add", "py"][1..] == ["py"];
    assert Join(["add", "py"], ".") == "add.py";
    ModuleFileNames(["pause", "py"]);
    assert ["pause", "py"][1..] == ["py"];
    assert Join(["pause", "py"], ".") == "pause.py";
  }

  /** Two loaded files, the first declaring one alias, the second two. */
  lemma EntriesOfTwoFiles(f: string, g: string, load: string -> Command,
                          n: string, x: string, m: string, y: string, z: string)
    requires CommandName(f) == n && CommandName(g) == m
    requires load(n).aliases == [x] && load(m).aliases == [y, z]
    ensures EntriesOf([f, g], load) ==
            [(n, load(n)), (x, load(n)), (m, load(m)), (y, load(m)), (z, load(m))]
  {
    var a, p := load(n), load(m);
    assert [n] + a.aliases == [n, x];
    assert [m] + p.aliases == [m, y, z];
    PairsShape([n, x], a);
    PairsShape([m, y, z], p);
    EntriesOfStep([], f, load);
    EntriesOfStep([f], g, load);
    assert [] + [f] == [f];
    assert [f] + [g] == [f, g];
  }

  lemma ScenarioEntries(load: string -> Command)
    requires load("add").aliases == ["a"] && load("pause").aliases == ["p", "stop"]
    ensures EntriesOf(["add.py", "pause.py"], load) ==
            [("add", load("add")), ("a", load("add")),
             ("pause", load("pause")), ("p", load("pause")), ("stop", load("pause"))]
  {
    ScenarioNames();
    EntriesOfTwoFiles("add.py", "pause.py", load, "add", "a", "pause", "p", "stop");
  }

  lemma DictOfStep(ps: seq<(string, Command)>, p: (string, Command))
    ensures DictOf(ps + [p]) == DictOf(ps)[p.0 := p.1]
  {
    assert (ps + [p])[..|ps|] == ps;
  }

  lemma RegistryOfEntries(files: seq<string>, exclude: seq<string>, load: string -> Command,
                          e: seq<(string, Command)>)
    requires EntriesOf(LoadedFiles(files, exclude), load) == e
    ensures Registry(Listed(files), exclude, load) == DictOf(e)
  {
  }

  /** The table of the scenario below, built one binding at a time. */
  lemma ScenarioTable(a: Command, p: Command)
    ensures DictOf([("add", a), ("a", a), ("pause", p), ("p", p), ("stop", p)]) ==
            map["add" := a, "a" := a, "pause" := p, "p" := p, "stop" := p]
  {
    var e1 := [("add", a)];
    var e2 := e1 + [("a", a)];
    var e3 := e2 + [("pause", p)];
    var e4 := e3 + [("p", p)];
    var e5 := e4 + [("stop", p)];
    assert e5 == [("add", a), ("a", a), ("pause", p), ("p", p), ("stop", p)];
    DictOfStep([], ("add", a));
    assert [] + [("add", a)] == e1;
    DictOfStep(e1, ("a", a));
    DictOfStep(e2, ("pause", p));
    DictOfStep(e3, ("p", p));
    DictOfStep(e4, ("stop", p));
  }

  /** Two commands, `add` with alias `a` and `pause` with aliases `p` and
      `stop`, next to the package's private `__init__.py`: `a` and `add`
      give the same command, `stop` gives `pause`, and `remove` is unknown. */
  lemma RegistryScenario(load: string -> Command)
    requires load("add").aliases == ["a"] && load("pause").aliases == ["p", "stop"]
    ensures var r := Registry(Listed(["__init__.py", "add.py", "pause.py"]), [], load);
            "a" in r && "add" in r && r["a"] == r["add"] == load("add") &&
            "stop" in r && r["stop"] == load("pause") && "remove" !in r
  {
    var a, p := load("add"), load("pause");
    var files := ["__init__.py", "add.py", "pause.py"];
    ScenarioLoadedFiles();
    ScenarioEntries(load);
    RegistryOfEntries(files, [], load, [("add", a), ("a", a), ("pause", p), ("p", p), ("stop", p)]);
    ScenarioTable(a, p);
    var m := map["add" := a, "a" := a, "pause" := p, "p" := p, "stop" := p];
    assert "remove" !in m;
  }

  // ---------------------------------------------------------------------
  // CommandOptionGroup.format_help

  /** The part of the help formatter the listing reads: its current
      indentation and its indentation step. */
  datatype Formatter = Formatter(currentIndent: nat, indentIncrement: nat)

  /** Whether the entry for key `k` gets a heading of its own: commands for
      the interactive console only and alias keys are left out. */
  predicate GetsHeading(k: string, c: Command) {
    !c.interactiveOnly && k !in c.aliases
  }

  /** The keys that get a heading, in iteration order. */
  function ListedKeys(cmds: map<string, Command>, keys: seq<string>): (listed: seq<string>)
    requires forall k :: k in keys ==> k in cmds
    ensures forall k :: k in listed ==> k in keys
  {
    if |keys| == 0 then []
    else
      var k := keys[|keys| - 1];
      ListedKeys(cmds, keys[..|keys| - 1]) + (if GetsHeading(k, cmds[k]) then [k] else [])
  }

  /** `" - ".join(["/".join([k] + aliases), doc])` */
  function HeadingText(k: string, c: Command): string {
    Join([Join([k] + c.aliases, "/"), c.doc], " - ")
  }

  function Spaces(n: nat): (s: string)
    ensures |s| == n && forall i :: 0 <= i < n ==> s[i] == ' '
  {
    seq(n, _ => ' ')
  }

  /** The text for one listed key: its heading, then its usage indented one
      step further. */
  function EntryText(k: string, c: Command, indent: nat, increment: nat,
                     heading: (nat, string) -> string): string {
    heading(indent, HeadingText(k, c)) + Spaces(indent + increment) + c.usage + "\n"
  }

  function EntriesText(cmds: map<string, Command>, keys: seq<string>, indent: nat, increment: nat,
                       heading: (nat, string) -> string): string
    requires forall k :: k in keys ==> k in cmds
  {
    if |keys| == 0 then ""
    else
      var k := keys[|keys| - 1];
      EntriesText(cmds, keys[..|keys| - 1], indent, increment, heading) + EntryText(k, cmds[k], indent, increment, heading)
  }

  /** The whole listing: the title heading, the description when there is
      one, then the text of each listed key one step in. `heading` and
      `describe` are the formatter's `format_heading` and
      `format_description` at a given indentation. */
  function HelpText(cmds: map<string, Command>, order: seq<string>, fmt: Formatter, title: string,
                    description: string, heading: (nat, string) -> string,
                    describe: (nat, string) -> string): string
    requires forall k :: k in order ==> k in cmds
  {
    var inner := fmt.currentIndent + fmt.indentIncrement;
    heading(fmt.currentIndent, title)
    + (if description != "" then describe(inner, description) + "\n" else "")
    + EntriesText(cmds, ListedKeys(cmds, order), inner, fmt.indentIncrement, heading)
  }

  lemma ListedKeysStep(cmds: map<string, Command>, keys: seq<string>, i: nat)
    requires forall k :: k in keys ==> k in cmds
    requires i < |keys|
    ensures ListedKeys(cmds, keys[..i + 1]) ==
            ListedKeys(cmds, keys[..i]) + (if GetsHeading(keys[i], cmds[keys[i]]) then [keys[i]] else [])
  {
    assert keys[..i + 1][..i] == keys[..i];
  }

  /** Appending one listed key's text to the listing built so far. */
  lemma EntriesTextStep(cmds: map<string, Command>, keys: seq<string>, k: string, indent: nat, increment: nat,
                        heading: (nat, string) -> string)
    requires forall x :: x in keys ==> x in cmds
    requires k in cmds
    ensures EntriesText(cmds, keys, indent, increment, heading)
              + heading(indent, HeadingText(k, cmds[k])) + Spaces(indent + increment) + cmds[k].usage + "\n"
            == EntriesText(cmds, keys + [k], indent, increment, heading)
  {
    assert (keys + [k])[..|keys|] == keys;
  }

  /** The loop of `format_help`: one heading and usage line per listed key,
      in iteration order. */
  method FormatCommands(cmds: map<string, Command>, order: seq<string>, indent: nat, increment: nat,
                        heading: (nat, string) -> string) returns (text: string)
    requires forall k :: k in order ==> k in cmds
    ensures text == EntriesText(cmds, ListedKeys(cmds, order), indent, increment, heading)
  {
    text := "";
    var i := 0;
    while i < |order|
      invariant 0 <= i <= |order|
      invariant text == EntriesText(cmds, ListedKeys(cmds, order[..i]), indent, increment, heading)
    {
      var cname := order[i];
      var cmd := cmds[cname];
      ListedKeysStep(cmds, order, i);
      ghost var listed := ListedKeys(cmds, order[..i]);
      if !(cmd.interactiveOnly || cname in cmd.aliases) {
        EntriesTextStep(cmds, listed, cname, indent, increment, heading);
        var allnames := [cname] + cmd.aliases;
        var line := Join([Join(allnames, "/"), cmd.doc], " - ");
        text := text + heading(indent, line);
        text := text + Spaces(indent + increment) + cmd.usage + "\n";
        assert ListedKeys(cmds, order[..i + 1]) == listed + [cname];
      } else {
        assert listed + [] == listed;
      }
      i := i + 1;
    }
    assert order[..i] == order;
  }

  /** `format_help`. `order` is the table's iteration order: every key once. */
  method FormatHelp(cmds: map<string, Command>, order: seq<string>, fmt: Formatter, title: string,
                    description: string, heading: (nat, string) -> string,
                    describe: (nat, string) -> string) returns (result: string)
    requires forall k :: k in order <==> k in cmds
    requires forall i, j :: 0 <= i < j < |order| ==> order[i] != order[j]
    ensures result == HelpText(cmds, order, fmt, title, description, heading, describe)
  {
    result := heading(fmt.currentIndent, title);
    var inner := fmt.currentIndent + fmt.indentIncrement;
    if description != "" {
      result := result + describe(inner, description) + "\n";
    }
    var commandsText := FormatCommands(cmds, order, inner, fmt.indentIncrement, heading);
    result := result + commandsText;
  }

  // ---------------------------------------------------------------------
  // Properties of the help listing

  /** A key gets a heading exactly when it is iterated, its command is not
      interactive-only, and the key is not one of that command's aliases. */
  lemma {:induction false} ListedKeysExactly(cmds: map<string, Command>, keys: seq<string>, k: string)
    requires forall x :: x in keys ==> x in cmds
    ensures k in ListedKeys(cmds, keys) <==>
            k in keys && !cmds[k].interactiveOnly && k !in cmds[k].aliases
  {
    if |keys| > 0 {
      var n := |keys| - 1;
      ListedKeysExactly(cmds, keys[..n], k);
      assert keys == keys[..n] + [keys[n]];
    }
  }

  /** A heading is the names joined by `/`, then ` - ` and the docstring, so
      it starts with the key; with `/`-free names the names can be read back
      from it. */
  lemma HeadingTextShape(k: string, c: Command)
    ensures HeadingText(k, c) == Join([k] + c.aliases, "/") + " - " + c.doc
    ensures StartsWith(HeadingText(k, c), k)
    ensures ('/' !in k && forall a :: a in c.aliases ==> '/' !in a) ==>
              Split(Join([k] + c.aliases, "/"), '/') == [k] + c.aliases
  {
    var names := [k] + c.aliases;
    assert [Join(names, "/"), c.doc][1..] == [c.doc];
    assert HeadingText(k, c) == Join(names, "/") + " - " + Join([c.doc], " - ");
    if |c.aliases| > 0 {
      assert names[1..] == c.aliases;
      assert Join(names, "/") == k + "/" + Join(c.aliases, "/");
    }
    assert Join(names, "/")[..|k|] == k;
    assert HeadingText(k, c)[..|k|] == Join(names, "/")[..|k|];
    if '/' !in k && forall a :: a in c.aliases ==> '/' !in a {
      assert forall i :: 0 <= i < |names| ==> '/' !in names[i] by {
        forall i | 0 <= i < |names| ensures '/' !in names[i] {
          if i > 0 {
            assert names[i] == c.aliases[i - 1];
          }
        }
      }
      SplitJoin(names, '/');
    }
  }

  /** In a table where no key clashes, each loaded command gets a heading
      under its name unless it is interactive-only or names itself as an
      alias, and its aliases never get one. */
  lemma HelpListsEachCommandOnce(files: seq<string>, exclude: seq<string>, load: string -> Command,
                                 order: seq<string>, f: string)
    requires NoKeyClash(files, exclude, load)
    requires f in files && Accepted(f, exclude)
    requires forall k :: k in order <==> k in Registry(Listed(files), exclude, load)
    ensures var c := load(CommandName(f));
            var listed := ListedKeys(Registry(Listed(files), exclude, load), order);
            (CommandName(f) in listed <==> !c.interactiveOnly && CommandName(f) !in c.aliases) &&
            forall a :: a in c.aliases ==> a !in listed
  {
    var r := Registry(Listed(files), exclude, load);
    var c := load(CommandName(f));
    RegistryResolvesAliases(files, exclude, load, f);
    ListedKeysExactly(r, order, CommandName(f));
    forall a | a in c.aliases
      ensures a !in ListedKeys(r, order)
    {
      ListedKeysExactly(r, order, a);
    }
  }

  /** When the command directory cannot be listed, batch mode reports that
      no commands were found. */
  lemma UnreadableDirectoryStopsBatch(args: seq<string>, exclude: seq<string>, load: string -> Command,
                                      daemon: Option<Daemon>, windows: bool)
    requires args != []
    ensures LaunchOf(args, Registry(Unreadable, exclude, load), daemon, windows) == NoCommands
  {
  }
}
