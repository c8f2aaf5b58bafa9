/** The process manager's rosters and saved configurations (HuboRT/src/Manager.cpp). */
module ConfigManagement {
  import opened TextComponents

  /** A name under which a directory can hold a file. */
  predicate FileName(name: string) {
    name != "" && name != "." && name != ".." && '/' !in name
  }

  type Folder = m: map<string, string> | forall name :: name in m ==> FileName(name)

  /** Opening a file for output replaces it; a name no file can have opens nothing. */
  function Write(folder: Folder, name: string, text: string): Folder {
    if FileName(name) then folder[name := text] else folder
  }

  datatype Disk = Disk(procs: Folder, chans: Folder, configs: Folder)

  datatype Roster = Procs | Chans

  const LAST_CONFIG: string := "last_config"

  function TagOf(roster: Roster): (tag: string)
    ensures Without(tag, ':') && Without(tag, '\n')
  {
    if roster.Procs? then "proc" else "chan"
  }

  function RosterOf(disk: Disk, roster: Roster): Folder {
    if roster.Procs? then disk.procs else disk.chans
  }

  function WithRoster(disk: Disk, roster: Roster, folder: Folder): Disk {
    if roster.Procs? then disk.(procs := folder) else disk.(chans := folder)
  }

  // ----- Saving -----

  /** A directory listing: every file once, in any order. */
  predicate Lists(names: seq<string>, folder: Folder) {
    && (forall i :: 0 <= i < |names| ==> names[i] in folder)
    && (forall name :: name in folder ==> name in names)
    && (forall i, j :: 0 <= i < j < |names| ==> names[i] != names[j])
  }

  function FirstLine(text: string): (line: string) {
    Pieces(text, '\n')[0]
  }

  /** One file as a line of a configuration. */
  function Entry(tag: string, name: string, contents: string): string {
    tag + ":" + name + ":" + FirstLine(contents)
  }

  function ContentsOf(folder: Folder, name: string): string {
    if name in folder then folder[name] else ""
  }

  function RosterText(tag: string, names: seq<string>, folder: Folder): string {
    if names == [] then ""
    else Entry(tag, names[0], ContentsOf(folder, names[0])) + "\n" + RosterText(tag, names[1..], folder)
  }

  lemma RosterTextFrom(tag: string, names: seq<string>, folder: Folder, i: nat)
    requires i <= |names|
    ensures if i < |names|
      then RosterText(tag, names[i..], folder)
        == Entry(tag, names[i], ContentsOf(folder, names[i])) + "\n" + RosterText(tag, names[i + 1..], folder)
      else RosterText(tag, names[i..], folder) == ""
  {
    hide Entry, FileName;
    if i < |names| {
      assert names[i..][0] == names[i] && names[i..][1..] == names[i + 1..];
    }
  }

  function ConfigText(disk: Disk, procs: seq<string>, chans: seq<string>): string {
    RosterText(TagOf(Procs), procs, disk.procs) + RosterText(TagOf(Chans), chans, disk.chans)
  }

  /** The directories once a configuration is saved, for the orders in which the rosters are listed. */
  function Saved(disk: Disk, name: string, procs: seq<string>, chans: seq<string>): Disk {
    disk.(configs := Write(disk.configs, name, ConfigText(disk, procs, chans)))
  }

  // ----- Loading -----

  /** What one line of a configuration adds. */
  function LineLoaded(disk: Disk, line: string): Disk {
    var cs := Components(line, ':');
    if |cs| < 2 then disk
    else if cs[0] == TagOf(Procs) then disk.(procs := Write(disk.procs, cs[1], Terminated(cs[2..], ':')))
    else if cs[0] == TagOf(Chans) then disk.(chans := Write(disk.chans, cs[1], Terminated(cs[2..], ':')))
    else disk
  }

  function LinesLoaded(disk: Disk, lines: seq<string>): Disk {
    if lines == [] then disk else LineLoaded(LinesLoaded(disk, lines[..|lines| - 1]), lines[|lines| - 1])
  }

  /** No line is a roster's label alone, beyond which the loader would read. */
  predicate Readable(text: string) {
    forall i :: 0 <= i < |Pieces(text, '\n')| ==> ReadableLine(Pieces(text, '\n')[i])
  }

  predicate ReadableLine(line: string) {
    var cs := Components(line, ':');
    |cs| == 1 ==> cs[0] != TagOf(Procs) && cs[0] != TagOf(Chans)
  }

  /** The rosters saved in last_config and then emptied. */
  function Cleared(disk: Disk, procs: seq<string>, chans: seq<string>): Disk {
    Saved(disk, LAST_CONFIG, procs, chans).(procs := map[], chans := map[])
  }

  /** The directories once a configuration is loaded; one that does not exist is not. */
  function Loaded(disk: Disk, name: string, procs: seq<string>, chans: seq<string>): Disk {
    if name !in disk.configs then disk
    else
      var cleared := Cleared(disk, procs, chans);
      LinesLoaded(cleared, Pieces(cleared.configs[name], '\n'))
  }

  lemma NotLoaded(disk: Disk, name: string, procs: seq<string>, chans: seq<string>)
    ensures name !in disk.configs ==> Loaded(disk, name, procs, chans) == disk
  {}

  // ----- What a configuration can hold -----

  /** A file whose name and contents a configuration's line can carry. */
  predicate Portable(name: string, contents: string) {
    && Without(name, ':') && Without(name, '\n')
    && Without(contents, '\n')
    && (contents == "" || contents[|contents| - 1] == ':')
  }

  predicate PortableFolder(folder: Folder) {
    forall name :: name in folder ==> Portable(name, folder[name])
  }

  predicate PortableRosters(disk: Disk) {
    PortableFolder(disk.procs) && PortableFolder(disk.chans)
  }

  /** What is left of a file's contents after saving and loading: the components of its first line. */
  function Trimmed(contents: string): string {
    Terminated(Components(FirstLine(contents), ':'), ':')
  }

  function Trims(folder: Folder): Folder {
    map name | name in folder :: Trimmed(folder[name])
  }

  /** Exactly the text on one line that ends with a colon, or is empty, is left as it is. */
  lemma TrimmedIsSameIff(contents: string)
    ensures Trimmed(contents) == contents
      <==> Without(contents, '\n') && (contents == "" || contents[|contents| - 1] == ':')
  {
    hide Pieces, Terminated;
    var line := FirstLine(contents);
    PiecesAreClean(contents, '\n');
    PiecesAreClean(line, ':');
    PiecesHaveNo(line, ':', '\n');
    TerminatedHasNo(Components(line, ':'), ':', '\n');
    TerminatedEnds(Components(line, ':'), ':');
    TerminatedOfComponents(line, ':');
    if Without(contents, '\n') { PieceEnds(contents, "", '\n'); }
  }

  lemma TrimsPortable(folder: Folder)
    requires PortableFolder(folder)
    ensures Trims(folder) == folder
  {
    hide Trimmed, FileName;
    forall name | name in folder
      ensures Trimmed(folder[name]) == folder[name]
    {
      assert Portable(name, folder[name]);
      TrimmedIsSameIff(folder[name]);
    }
  }

  /** What loading one file's line does. */
  lemma EntryLoads(disk: Disk, roster: Roster, name: string, contents: string)
    requires Without(name, ':') && FileName(name)
    ensures LineLoaded(disk, Entry(TagOf(roster), name, contents))
      == WithRoster(disk, roster, RosterOf(disk, roster)[name := Trimmed(contents)])
  {
    hide Pieces, TagOf, Terminated;
    var tag, line := TagOf(roster), FirstLine(contents);
    PieceEnds(tag, name + [':'] + line, ':');
    PieceEnds(name, line, ':');
    assert Entry(tag, name, contents) == tag + [':'] + (name + [':'] + line);
    var cs := Components(Entry(tag, name, contents), ':');
    assert cs == [tag, name] + Components(line, ':');
    assert cs[2..] == Components(line, ':');
    TagsDiffer();
  }

  lemma TagsDiffer()
    ensures TagOf(Procs) != TagOf(Chans)
  {
    assert TagOf(Procs)[0] == 'p' && TagOf(Chans)[0] == 'c';
  }

  /** Whatever the text, everything that a load writes is portable. */
  lemma {:induction false} LoadWritesPortable(disk: Disk, lines: seq<string>)
    requires PortableRosters(disk) && forall i :: 0 <= i < |lines| ==> Without(lines[i], '\n')
    ensures PortableRosters(LinesLoaded(disk, lines))
    ensures LinesLoaded(disk, lines).configs == disk.configs
  {
    if lines != [] {
      var before, line := LinesLoaded(disk, lines[..|lines| - 1]), lines[|lines| - 1];
      LoadWritesPortable(disk, lines[..|lines| - 1]);
      LineWritesPortable(before, line);
    }
  }

  lemma LineWritesPortable(disk: Disk, line: string)
    requires PortableRosters(disk) && Without(line, '\n')
    ensures PortableRosters(LineLoaded(disk, line))
    ensures LineLoaded(disk, line).configs == disk.configs
  {
    hide TagOf, Pieces, Terminated;
    var cs := Components(line, ':');
    PiecesAreClean(line, ':');
    PiecesHaveNo(line, ':', '\n');
    if 2 <= |cs| {
      TerminatedEnds(cs[2..], ':');
      TerminatedHasNo(cs[2..], ':', '\n');
      assert Portable(cs[1], Terminated(cs[2..], ':'));
    }
  }

  // ----- A saved configuration, loaded -----

  function Entries(tag: string, names: seq<string>, folder: Folder): (lines: seq<string>)
    ensures |lines| == |names|
  {
    seq(|names|, i requires 0 <= i < |names| => Entry(tag, names[i], ContentsOf(folder, names[i])))
  }

  /** A configuration's lines are its entries, when no name breaks a line. */
  lemma {:induction false} LinesOfRoster(tag: string, names: seq<string>, folder: Folder, rest: string)
    requires Without(tag, '\n') && forall i :: 0 <= i < |names| ==> Without(names[i], '\n')
    ensures Pieces(RosterText(tag, names, folder) + rest, '\n') == Entries(tag, names, folder) + Pieces(rest, '\n')
  {
    hide Pieces, Entry, FileName;
    if names == [] {
      assert RosterText(tag, names, folder) + rest == rest;
    } else {
      var entry, more := Entry(tag, names[0], ContentsOf(folder, names[0])), RosterText(tag, names[1..], folder);
      LinesOfRoster(tag, names[1..], folder, rest);
      assert RosterText(tag, names, folder) + rest == entry + ['\n'] + (more + rest);
      EntryIsOneLine(tag, names[0], ContentsOf(folder, names[0]));
      PieceEnds(entry, more + rest, '\n');
      assert Entries(tag, names, folder) == [entry] + Entries(tag, names[1..], folder);
    }
  }

  lemma EntryIsOneLine(tag: string, name: string, contents: string)
    requires Without(tag, '\n') && Without(name, '\n')
    ensures Without(Entry(tag, name, contents), '\n')
  {
    hide Pieces;
    PiecesAreClean(contents, '\n');
  }

  lemma {:induction false} LinesLoadedConcat(disk: Disk, first: seq<string>, second: seq<string>)
    ensures LinesLoaded(disk, first + second) == LinesLoaded(LinesLoaded(disk, first), second)
  {
    hide LineLoaded, FileName;
    if second == [] {
      assert first + second == first;
    } else {
      LinesLoadedConcat(disk, first, second[..|second| - 1]);
      assert (first + second)[..|first + second| - 1] == first + second[..|second| - 1];
    }
  }

  lemma LinesLoadedMore(disk: Disk, lines: seq<string>, line: string)
    ensures LinesLoaded(disk, lines + [line]) == LineLoaded(LinesLoaded(disk, lines), line)
    ensures LinesLoaded(disk, []) == disk
  {
    hide LineLoaded;
    assert (lines + [line])[..|lines|] == lines;
  }

  function Part(folder: Folder, names: seq<string>): Folder {
    map name | name in names && name in folder :: Trimmed(folder[name])
  }

  lemma {:induction false} RosterLoads(disk: Disk, roster: Roster, names: seq<string>, folder: Folder)
    requires RosterOf(disk, roster) == map[]
    requires forall i :: 0 <= i < |names| ==> names[i] in folder && Without(names[i], ':')
    ensures LinesLoaded(disk, Entries(TagOf(roster), names, folder)) == WithRoster(disk, roster, Part(folder, names))
  {
    hide LineLoaded, Entry, TagOf, FileName, Trimmed, Without;
    var lines := Entries(TagOf(roster), names, folder);
    if names == [] {
      assert lines == [] && Part(folder, names) == map[];
    } else {
      var k := |names| - 1;
      var last, part := names[k], Part(folder, names[..k]);
      RosterLoads(disk, roster, names[..k], folder);
      assert lines[..k] == Entries(TagOf(roster), names[..k], folder);
      assert lines[k] == Entry(TagOf(roster), last, folder[last]);
      FolderEntryLoads(WithRoster(disk, roster, part), roster, last, folder);
      PartGrows(folder, names);
    }
  }

  lemma PartGrows(folder: Folder, names: seq<string>)
    requires names != [] && names[|names| - 1] in folder
    ensures var last := names[|names| - 1];
      Part(folder, names) == Part(folder, names[..|names| - 1])[last := Trimmed(folder[last])]
  {
    hide FileName, Trimmed;
  }

  lemma FolderEntryLoads(disk: Disk, roster: Roster, name: string, folder: Folder)
    requires name in folder && Without(name, ':')
    ensures LineLoaded(disk, Entry(TagOf(roster), name, folder[name]))
      == WithRoster(disk, roster, RosterOf(disk, roster)[name := Trimmed(folder[name])])
  {
    hide LineLoaded, Entry, TagOf, Trimmed;
    EntryLoads(disk, roster, name, folder[name]);
  }

  lemma PartOfAll(folder: Folder, names: seq<string>)
    requires Lists(names, folder)
    ensures Part(folder, names) == Trims(folder)
  {
    hide FileName, Trimmed;
  }

  /** The text holds a disk's rosters, in some order. */
  ghost predicate Holds(text: string, disk: Disk) {
    exists procs, chans ::
      Lists(procs, disk.procs) && Lists(chans, disk.chans) && text == ConfigText(disk, procs, chans)
  }

  /** No file's name breaks a line or a component. */
  predicate PlainNames(disk: Disk) {
    && (forall name :: name in disk.procs ==> Without(name, ':') && Without(name, '\n'))
    && (forall name :: name in disk.chans ==> Without(name, ':') && Without(name, '\n'))
  }

  lemma PortableIsPlain(disk: Disk)
    requires PortableRosters(disk)
    ensures PlainNames(disk)
  {}

  /** The lines of a configuration. */
  lemma ConfigLines(disk: Disk, procs: seq<string>, chans: seq<string>)
    requires PlainNames(disk) && Lists(procs, disk.procs) && Lists(chans, disk.chans)
    ensures Pieces(ConfigText(disk, procs, chans), '\n')
      == Entries(TagOf(Procs), procs, disk.procs) + Entries(TagOf(Chans), chans, disk.chans) + [""]
  {
    hide Pieces, RosterText, Entries;
    var second := RosterText(TagOf(Chans), chans, disk.chans);
    LinesOfRoster(TagOf(Procs), procs, disk.procs, second);
    LinesOfRoster(TagOf(Chans), chans, disk.chans, "");
    assert second + "" == second;
    PieceEnds("", "", '\n');
  }

  /** What comes back from a text that holds rosters with plain names, whatever the order in which it lists them. */
  lemma HeldRostersLoad(disk: Disk, text: string, into: Disk)
    requires Holds(text, disk) && PlainNames(disk)
    requires into.procs == map[] && into.chans == map[]
    ensures LinesLoaded(into, Pieces(text, '\n')) == into.(procs := Trims(disk.procs), chans := Trims(disk.chans))
    ensures PortableRosters(disk) ==> Trims(disk.procs) == disk.procs && Trims(disk.chans) == disk.chans
  {
    hide Pieces, LinesLoaded, RosterText, Entries, Trims, Part, PortableFolder;
    var procs, chans :| Lists(procs, disk.procs) && Lists(chans, disk.chans) && text == ConfigText(disk, procs, chans);
    var first, second := Entries(TagOf(Procs), procs, disk.procs), Entries(TagOf(Chans), chans, disk.chans);
    ConfigLines(disk, procs, chans);
    LinesLoadedConcat(into, first + second, [""]);
    LinesLoadedConcat(into, first, second);
    RosterLoads(into, Procs, procs, disk.procs);
    PartOfAll(disk.procs, procs);
    PartOfAll(disk.chans, chans);
    RosterLoads(into.(procs := Trims(disk.procs)), Chans, chans, disk.chans);
    BlankLoadsNothing(into.(procs := Trims(disk.procs), chans := Trims(disk.chans)));
    if PortableRosters(disk) {
      TrimsPortable(disk.procs);
      TrimsPortable(disk.chans);
    }
  }

  lemma BlankLoadsNothing(disk: Disk)
    ensures LinesLoaded(disk, [""]) == disk
    ensures Components("", ':') == []
  {
    assert [""][..0] == [];
    assert LinesLoaded(disk, []) == disk;
  }

  /** A saved configuration can be read, when no name breaks a line or a component. */
  lemma SavedIsReadable(disk: Disk, procs: seq<string>, chans: seq<string>)
    requires PlainNames(disk) && Lists(procs, disk.procs) && Lists(chans, disk.chans)
    ensures Readable(ConfigText(disk, procs, chans))
  {
    hide Pieces, RosterText, ConfigText;
    ConfigLines(disk, procs, chans);
    EntriesAreReadable(TagOf(Procs), procs, disk.procs);
    EntriesAreReadable(TagOf(Chans), chans, disk.chans);
    BlankLoadsNothing(disk);
  }

  lemma EntriesAreReadable(tag: string, names: seq<string>, folder: Folder)
    requires Without(tag, ':') && forall i :: 0 <= i < |names| ==> Without(names[i], ':')
    ensures forall i :: 0 <= i < |names| ==> 2 <= |Components(Entries(tag, names, folder)[i], ':')|
  {
    hide Pieces;
    forall i | 0 <= i < |names|
      ensures 2 <= |Components(Entries(tag, names, folder)[i], ':')|
    {
      var line := FirstLine(ContentsOf(folder, names[i]));
      PieceEnds(tag, names[i] + [':'] + line, ':');
      PieceEnds(names[i], line, ':');
      assert Entries(tag, names, folder)[i] == tag + [':'] + (names[i] + [':'] + line);
    }
  }

  // ----- Runs of the manager -----

  datatype Operation =
    | Register(roster: Roster, description: string)
    | Unregister(roster: Roster, file: string)
    | Save(config: string)
    | Load(config: string)
    | Delete(config: string)

  /** Components that a registration needs. */
  function Fewest(roster: Roster): nat {
    if roster.Procs? then 3 else 4
  }

  function Registered(disk: Disk, roster: Roster, description: string): Disk {
    var cs := Components(description, ':');
    if |cs| < Fewest(roster) then disk
    else WithRoster(disk, roster, Write(RosterOf(disk, roster), cs[0], Terminated(cs[1..], ':')))
  }

  /** An operation's effect, for the orders in which it finds the rosters listed. */
  function Performed(disk: Disk, op: Operation, procs: seq<string>, chans: seq<string>): Disk {
    match op
    case Register(roster, description) => Registered(disk, roster, description)
    case Unregister(roster, file) => WithRoster(disk, roster, RosterOf(disk, roster) - {file})
    case Save(config) => Saved(disk, config, procs, chans)
    case Load(config) => Loaded(disk, config, procs, chans)
    case Delete(config) => disk.(configs := disk.configs - {config})
  }

  /** Loading a configuration reads no label that stands alone. */
  predicate LoadsReadably(disk: Disk, config: string, procs: seq<string>, chans: seq<string>) {
    config in disk.configs ==> Readable(Cleared(disk, procs, chans).configs[config])
  }

  ghost predicate Step(before: Disk, op: Operation, after: Disk) {
    exists procs, chans ::
      && Lists(procs, before.procs) && Lists(chans, before.chans)
      && (op.Load? ==> LoadsReadably(before, op.config, procs, chans))
      && after == Performed(before, op, procs, chans)
  }

  /** The orders in which a step finds the rosters listed. */
  lemma OrdersOf(before: Disk, op: Operation, after: Disk) returns (procs: seq<string>, chans: seq<string>)
    requires Step(before, op, after)
    ensures Lists(procs, before.procs) && Lists(chans, before.chans) && after == Performed(before, op, procs, chans)
  {
    hide Lists, LoadsReadably, Performed;
    procs, chans :| Lists(procs, before.procs) && Lists(chans, before.chans)
      && (op.Load? ==> LoadsReadably(before, op.config, procs, chans)) && after == Performed(before, op, procs, chans);
  }

  ghost predicate Run(disks: seq<Disk>, ops: seq<Operation>) {
    |disks| == |ops| + 1 && forall i :: 0 <= i < |ops| ==> Step(disks[i], ops[i], disks[i + 1])
  }

  /** Nothing in the run writes or deletes the configuration on request. */
  predicate Spares(ops: seq<Operation>, config: string) {
    forall i :: 0 <= i < |ops| ==> ops[i] != Save(config) && ops[i] != Delete(config)
  }

  lemma LoadKeepsConfigs(disk: Disk, lines: seq<string>)
    ensures LinesLoaded(disk, lines).configs == disk.configs
  {
    if lines != [] {
      LoadKeepsConfigs(disk, lines[..|lines| - 1]);
    }
  }

  /** A saved configuration outlives every operation that does not save or delete it, loading others included, unless it
      is last_config. */
  lemma {:induction false} ConfigSurvives(disks: seq<Disk>, ops: seq<Operation>, config: string)
    requires Run(disks, ops) && Spares(ops, config) && config != LAST_CONFIG && config in disks[0].configs
    ensures config in disks[|ops|].configs && disks[|ops|].configs[config] == disks[0].configs[config]
  {
    if ops != [] {
      var k := |ops| - 1;
      ConfigSurvives(disks[..k + 1], ops[..k], config);
      StepSparesConfig(disks[k], ops[k], disks[k + 1], config);
    }
  }

  lemma StepSparesConfig(before: Disk, op: Operation, after: Disk, config: string)
    requires Step(before, op, after) && op != Save(config) && op != Delete(config)
    requires config != LAST_CONFIG && config in before.configs
    ensures config in after.configs && after.configs[config] == before.configs[config]
  {
    hide Pieces, LinesLoaded, ConfigText, Terminated, Step, Lists;
    var procs, chans := OrdersOf(before, op, after);
    match op
    case Load(name) =>
      if name in before.configs {
        var cleared := Cleared(before, procs, chans);
        LoadKeepsConfigs(cleared, Pieces(cleared.configs[name], '\n'));
      }
    case _ =>
  }

  /** Saving a configuration, then any operations that neither save nor delete it, then loading it: both rosters are
      exactly as they were when it was saved, if and only if every file in them was portable. What the rosters were just
      before the load is kept in last_config. */
  lemma LoadRestoresExactlyPortable(disks: seq<Disk>, ops: seq<Operation>, config: string)
    requires 2 <= |ops| && Run(disks, ops)
    requires ops[0] == Save(config) && ops[|ops| - 1] == Load(config) && Spares(ops[1..|ops| - 1], config)
    requires FileName(config) && config != LAST_CONFIG
    ensures SameRosters(disks[|ops|], disks[0]) <==> PortableRosters(disks[0])
    ensures LAST_CONFIG in disks[|ops|].configs && Holds(disks[|ops|].configs[LAST_CONFIG], disks[|ops| - 1])
  {
    hide ConfigText, Pieces, LinesLoaded, PortableRosters, FileName;
    var k := |ops| - 1;
    var first, middle, last := disks[0], disks[1..k + 1], disks[k];
    SaveHolds(first, config, disks[1]);
    ConfigSurvives(middle, ops[1..k], config);
    assert middle[0] == disks[1] && middle[|ops[1..k]|] == last;
    LoadLoads(last, config, disks[k + 1], first);
  }

  lemma SaveHolds(before: Disk, config: string, after: Disk)
    requires Step(before, Save(config), after) && FileName(config)
    ensures config in after.configs && Holds(after.configs[config], before)
  {
    hide ConfigText;
  }

  lemma LoadLoads(before: Disk, config: string, after: Disk, held: Disk)
    requires Step(before, Load(config), after) && config != LAST_CONFIG
    requires config in before.configs && Holds(before.configs[config], held)
    ensures SameRosters(after, held) <==> PortableRosters(held)
    ensures LAST_CONFIG in after.configs && Holds(after.configs[LAST_CONFIG], before)
  {
    hide ConfigText, Pieces, LinesLoaded, PortableRosters, Trims, Step, Lists;
    var procs, chans := OrdersOf(before, Load(config), after);
    var cleared, text := Cleared(before, procs, chans), before.configs[config];
    assert cleared.configs[config] == text;
    PiecesAreClean(text, '\n');
    LoadWritesPortable(cleared, Pieces(text, '\n'));
    if PortableRosters(held) {
      PortableIsPlain(held);
      HeldRostersLoad(held, text, cleared);
    }
    SameRostersPortable(after, held);
  }

  predicate SameRosters(a: Disk, b: Disk) {
    a.procs == b.procs && a.chans == b.chans
  }

  lemma SameRostersPortable(a: Disk, b: Disk)
    ensures SameRosters(a, b) ==> PortableRosters(a) == PortableRosters(b)
  {}

  /** Loading last_config saves the rosters over it first, so what is loaded is what was there: the rosters stay as
      they are exactly when last_config does not exist, or every file in them is portable. With plain names every file
      is left with the components of its first line. */
  lemma LoadingLastConfigKeepsIff(before: Disk, after: Disk)
    requires Step(before, Load(LAST_CONFIG), after)
    ensures SameRosters(after, before) <==> LAST_CONFIG !in before.configs || PortableRosters(before)
    ensures LAST_CONFIG in before.configs && PlainNames(before) ==>
      after.procs == Trims(before.procs) && after.chans == Trims(before.chans)
  {
    hide ConfigText, Pieces, LinesLoaded, PortableRosters, PlainNames, Trims, Step, Lists;
    var procs, chans := OrdersOf(before, Load(LAST_CONFIG), after);
    if LAST_CONFIG in before.configs {
      var cleared, text := Cleared(before, procs, chans), ConfigText(before, procs, chans);
      assert FileName(LAST_CONFIG);
      assert cleared.configs[LAST_CONFIG] == text;
      PiecesAreClean(text, '\n');
      LoadWritesPortable(cleared, Pieces(text, '\n'));
      SameRostersPortable(after, before);
      if PortableRosters(before) { PortableIsPlain(before); }
      if PlainNames(before) { HeldRostersLoad(before, text, cleared); }
    }
  }

  /** The rosters that last_config held before come back exactly when the rosters there, trimmed, are the same; portable
      ones, exactly when nothing has changed since. */
  lemma LastConfigComesBackIff(before: Disk, after: Disk, held: Disk)
    requires Step(before, Load(LAST_CONFIG), after) && PlainNames(before)
    requires LAST_CONFIG in before.configs && Holds(before.configs[LAST_CONFIG], held)
    ensures SameRosters(after, held) <==> Trims(before.procs) == held.procs && Trims(before.chans) == held.chans
    ensures PortableRosters(before) ==> (SameRosters(after, held) <==> SameRosters(before, held))
  {
    hide PortableRosters, PlainNames, Trims, Step, Holds;
    LoadingLastConfigKeepsIff(before, after);
  }

  /** Rosters filled by registrations on one line each, and by loads, are portable after every run. */
  lemma {:induction false} RunKeepsPortable(disks: seq<Disk>, ops: seq<Operation>)
    requires Run(disks, ops) && PortableRosters(disks[0])
    requires forall i :: 0 <= i < |ops| && ops[i].Register? ==> Without(ops[i].description, '\n')
    ensures PortableRosters(disks[|ops|])
  {
    hide PortableRosters, Without, Step;
    if ops != [] {
      var k := |ops| - 1;
      RunKeepsPortable(disks[..k + 1], ops[..k]);
      StepKeepsPortable(disks[k], ops[k], disks[k + 1]);
    }
  }

  lemma StepKeepsPortable(before: Disk, op: Operation, after: Disk)
    requires Step(before, op, after) && PortableRosters(before)
    requires op.Register? ==> Without(op.description, '\n')
    ensures PortableRosters(after)
  {
    hide ConfigText, Pieces, LinesLoaded, Portable, FileName, Terminated, Step, Lists;
    var procs, chans := OrdersOf(before, op, after);
    match op
    case Register(roster, description) =>
      var cs := Components(description, ':');
      if Fewest(roster) <= |cs| {
        RegistrationIsPortable(description);
      }
    case Load(config) =>
      if config in before.configs {
        var cleared := Cleared(before, procs, chans);
        PiecesAreClean(cleared.configs[config], '\n');
        LoadWritesPortable(cleared, Pieces(cleared.configs[config], '\n'));
      }
    case _ =>
  }

  lemma RegistrationIsPortable(description: string)
    requires Without(description, '\n') && Components(description, ':') != []
    ensures var cs := Components(description, ':'); Portable(cs[0], Terminated(cs[1..], ':'))
  {
    hide Pieces, Terminated;
    var cs := Components(description, ':');
    PiecesAreClean(description, ':');
    PiecesHaveNo(description, ':', '\n');
    TerminatedEnds(cs[1..], ':');
    TerminatedHasNo(cs[1..], ':', '\n');
  }

  /** When a load can be read whatever the listing order: last_config with plain names in the rosters, another
      configuration when its text can be read. */
  lemma LoadsReadablyWhen(disk: Disk, config: string, procs: seq<string>, chans: seq<string>)
    requires Lists(procs, disk.procs) && Lists(chans, disk.chans)
    requires config in disk.configs ==>
      if config == LAST_CONFIG then PlainNames(disk) else Readable(disk.configs[config])
    ensures LoadsReadably(disk, config, procs, chans)
  {
    hide ConfigText, Readable, Lists;
    assert FileName(LAST_CONFIG);
    if config in disk.configs && config == LAST_CONFIG {
      SavedIsReadable(disk, procs, chans);
    }
  }

  /** Rosters with plain names can be saved and loaded at once. */
  lemma SaveThenLoad(disk: Disk, config: string, procs: seq<string>, chans: seq<string>) returns (disks: seq<Disk>)
    requires PlainNames(disk) && FileName(config) && config != LAST_CONFIG
    requires Lists(procs, disk.procs) && Lists(chans, disk.chans)
    ensures Run(disks, [Save(config), Load(config)]) && disks[0] == disk
  {
    hide Lists, PlainNames, ConfigText, Readable, LinesLoaded, Pieces, FileName;
    var saved := Performed(disk, Save(config), procs, chans);
    SavedIsReadable(disk, procs, chans);
    LoadsReadablyWhen(saved, config, procs, chans);
    hide LoadsReadably;
    var loaded := Performed(saved, Load(config), procs, chans);
    assert Step(disk, Save(config), saved) && Step(saved, Load(config), loaded);
    disks := [disk, saved, loaded];
  }

  // ----- Inputs -----

  /** One process. */
  function OneProcess(contents: string): Disk {
    assert FileName("p");
    Disk(map["p" := contents], map[], map[])
  }

  lemma OneProcessIsPlain(contents: string)
    ensures PlainNames(OneProcess(contents))
    ensures Lists(["p"], OneProcess(contents).procs) && Lists([], OneProcess(contents).chans)
    ensures PortableRosters(OneProcess(contents)) <==> Portable("p", contents)
  {
    var disk := OneProcess(contents);
    assert "p" in disk.procs && disk.procs["p"] == contents;
    assert forall name :: name in disk.procs ==> name == "p";
    hide Portable, FileName;
    assert PortableFolder(disk.chans);
    assert PortableFolder(disk.procs) <==> Portable("p", contents);
  }

  /** A file without a final colon is lost by saving and loading. */
  lemma UnterminatedFileIsLost() returns (disks: seq<Disk>)
    ensures Run(disks, [Save("c"), Load("c")]) && disks[0] == OneProcess("x") && !SameRosters(disks[2], disks[0])
  {
    hide Run, ConfigText, Pieces, Readable, LinesLoaded, PlainNames, Lists, PortableRosters, OneProcess;
    OneProcessIsPlain("x");
    var ops := [Save("c"), Load("c")];
    disks := SaveThenLoad(OneProcess("x"), "c", ["p"], []);
    assert ops[1..|ops| - 1] == [];
    LoadRestoresExactlyPortable(disks, ops, "c");
    assert !Portable("p", "x") by { assert "x"[|"x"| - 1] == 'x'; }
  }

  /** A step for given orders of the listings. */
  lemma StepOf(disk: Disk, op: Operation, procs: seq<string>, chans: seq<string>) returns (after: Disk)
    requires Lists(procs, disk.procs) && Lists(chans, disk.chans)
    requires op.Load? ==> LoadsReadably(disk, op.config, procs, chans)
    ensures after == Performed(disk, op, procs, chans) && Step(disk, op, after)
  {
    hide Lists, LoadsReadably, Performed;
    after := Performed(disk, op, procs, chans);
  }

  /** Rosters saved as last_config on request do not come back once a process is unregistered. */
  lemma OlderRostersStayAway() returns (disks: seq<Disk>)
    ensures Run(disks, [Save(LAST_CONFIG), Unregister(Procs, "p"), Load(LAST_CONFIG)]) && disks[0] == OneProcess("x:")
    ensures LAST_CONFIG in disks[2].configs && Holds(disks[2].configs[LAST_CONFIG], disks[0])
    ensures !SameRosters(disks[3], disks[0])
  {
    hide ConfigText, Pieces, Readable, LinesLoaded, LoadsReadably, Lists, Holds, Step, PlainNames, PortableRosters;
    var disk := OneProcess("x:");
    OneProcessIsPlain("x:");
    assert FileName(LAST_CONFIG);
    var saved := StepOf(disk, Save(LAST_CONFIG), ["p"], []);
    SaveHolds(disk, LAST_CONFIG, saved);
    var emptied := StepOf(saved, Unregister(Procs, "p"), ["p"], []);
    EmptyDisk(emptied);
    var loaded := StepOf(emptied, Load(LAST_CONFIG), [], []);
    LoadingLastConfigKeepsIff(emptied, loaded);
    disks := [disk, saved, emptied, loaded];
  }

  lemma EmptyDisk(disk: Disk)
    requires disk.procs == map[] && disk.chans == map[]
    ensures Lists([], disk.procs) && Lists([], disk.chans) && PortableRosters(disk)
    ensures LoadsReadably(disk, LAST_CONFIG, [], [])
  {
    LoadsReadablyWhen(disk, LAST_CONFIG, [], []);
  }

  /** Rosters that a configuration cannot carry can end up as what last_config held before: here the process's text,
      which has no colon, is lost as it was lost then. */
  lemma TrimmedRostersComeBack() returns (before: Disk, after: Disk)
    ensures before.procs == OneProcess("x").procs && Step(before, Load(LAST_CONFIG), after)
    ensures LAST_CONFIG in before.configs && Holds(before.configs[LAST_CONFIG], OneProcess(""))
    ensures !SameRosters(before, OneProcess("")) && SameRosters(after, OneProcess(""))
  {
    hide ConfigText, Readable, LinesLoaded, LoadsReadably, Lists, Step, PlainNames, Trimmed;
    var held := OneProcess("");
    OneProcessIsPlain("");
    OneProcessIsPlain("x");
    assert FileName(LAST_CONFIG);
    before := OneProcess("x").(configs := map[LAST_CONFIG := ConfigText(held, ["p"], [])]);
    assert Holds(before.configs[LAST_CONFIG], held);
    hide Holds;
    PlainRosters(OneProcess("x"), before);
    LoadsReadablyWhen(before, LAST_CONFIG, ["p"], []);
    after := StepOf(before, Load(LAST_CONFIG), ["p"], []);
    NoColonTrims();
    assert Trims(before.procs) == held.procs && Trims(before.chans) == held.chans;
    LastConfigComesBackIff(before, after, held);
  }

  lemma PlainRosters(a: Disk, b: Disk)
    requires PlainNames(a) && SameRosters(a, b)
    ensures PlainNames(b)
  {}

  lemma NoColonTrims()
    ensures Trimmed("x") == ""
  {
    hide Pieces;
    PieceEnds("x", "", '\n');
    PieceEnds("x", "", ':');
  }

  // ----- One registration, and one save -----

  /** Registering, in full, for any description: its components, and the text that no colon ends. A description with too
      few components changes nothing; otherwise the file named by the first one then holds the others, each with its
      colon, and nothing else changes. A name that no file can have changes nothing either. */
  lemma RegistersExactly(disk: Disk, roster: Roster, cs: seq<string>, rest: string)
    requires (forall i :: 0 <= i < |cs| ==> Without(cs[i], ':')) && Without(rest, ':')
    ensures var before, after := RosterOf(disk, roster), Registered(disk, roster, Terminated(cs, ':') + rest);
      var other := if roster.Procs? then Chans else Procs;
      && after.configs == disk.configs && RosterOf(after, other) == RosterOf(disk, other)
      && if |cs| < (if roster.Procs? then 3 else 4) || !FileName(cs[0]) then RosterOf(after, roster) == before
         else RosterOf(after, roster) == before[cs[0] := Terminated(cs[1..], ':')]
  {
    hide Terminated, Registered, FileName, WithRoster, RosterOf;
    DescriptionRegisters(disk, roster, cs, rest);
    if (if roster.Procs? then 3 else 4) <= |cs| {
      var text := Terminated(cs[1..], ':');
      RosterReplaced(disk, roster, Write(RosterOf(disk, roster), cs[0], text));
    }
  }

  lemma DescriptionRegisters(disk: Disk, roster: Roster, cs: seq<string>, rest: string)
    requires (forall i :: 0 <= i < |cs| ==> Without(cs[i], ':')) && Without(rest, ':')
    ensures Registered(disk, roster, Terminated(cs, ':') + rest)
      == if |cs| < (if roster.Procs? then 3 else 4) then disk
         else WithRoster(disk, roster, Write(RosterOf(disk, roster), cs[0], Terminated(cs[1..], ':')))
  {
    hide Pieces, Terminated, Write, FileName, WithRoster, RosterOf;
    ComponentsThenRest(cs, rest);
    assert (cs + [rest])[..|cs|] == cs;
  }

  lemma RosterReplaced(disk: Disk, roster: Roster, folder: Folder)
    ensures var after, other := WithRoster(disk, roster, folder), if roster.Procs? then Chans else Procs;
      && after.configs == disk.configs && RosterOf(after, other) == RosterOf(disk, other)
      && RosterOf(after, roster) == folder
  {}

  lemma Writes(folder: Folder, name: string, text: string)
    ensures Write(folder, name, text) == if FileName(name) then folder[name := text] else folder
  {}

  lemma {:induction false} ComponentsThenRest(cs: seq<string>, rest: string)
    requires (forall i :: 0 <= i < |cs| ==> Without(cs[i], ':')) && Without(rest, ':')
    ensures Pieces(Terminated(cs, ':') + rest, ':') == cs + [rest]
  {
    hide Pieces;
    if cs == [] {
      assert Terminated(cs, ':') + rest == rest;
      PieceEnds(rest, "", ':');
    } else {
      ComponentsThenRest(cs[1..], rest);
      PieceEnds(cs[0], Terminated(cs[1..], ':') + rest, ':');
      assert Terminated(cs, ':') + rest == cs[0] + [':'] + (Terminated(cs[1..], ':') + rest);
    }
  }

  /** Taking a file out of its roster undoes its registration, and nothing else. */
  lemma UnregisterUndoes(disk: Disk, roster: Roster, cs: seq<string>, rest: string, after: Disk)
    requires (forall i :: 0 <= i < |cs| ==> Without(cs[i], ':')) && Without(rest, ':') && cs != []
    requires cs[0] !in RosterOf(disk, roster)
    requires Step(Registered(disk, roster, Terminated(cs, ':') + rest), Unregister(roster, cs[0]), after)
    ensures after == disk
  {
    hide Terminated, Registered, Lists, FileName, WithRoster, RosterOf, Step;
    var registered := Registered(disk, roster, Terminated(cs, ':') + rest);
    RegistersExactly(disk, roster, cs, rest);
    UnregisterMeans(registered, roster, cs[0], after);
    if RosterOf(registered, roster) != RosterOf(disk, roster) {
      TakenOut(RosterOf(disk, roster), cs[0], Terminated(cs[1..], ':'));
    }
    SameRoster(disk, after, roster);
  }

  lemma UnregisterMeans(disk: Disk, roster: Roster, file: string, after: Disk)
    requires Step(disk, Unregister(roster, file), after)
    ensures var other := if roster.Procs? then Chans else Procs;
      && after.configs == disk.configs && RosterOf(after, other) == RosterOf(disk, other)
      && RosterOf(after, roster) == RosterOf(disk, roster) - {file}
      && (file !in RosterOf(disk, roster) ==> RosterOf(after, roster) == RosterOf(disk, roster))
  {
    hide Lists, FileName, WithRoster, RosterOf;
    RosterReplaced(disk, roster, RosterOf(disk, roster) - {file});
  }

  lemma TakenOut(folder: map<string, string>, name: string, text: string)
    requires name !in folder
    ensures folder[name := text] - {name} == folder
  {}

  lemma SameRoster(a: Disk, b: Disk, roster: Roster)
    requires a.configs == b.configs && RosterOf(a, roster) == RosterOf(b, roster)
    requires var other := if roster.Procs? then Chans else Procs; RosterOf(a, other) == RosterOf(b, other)
    ensures a == b
  {}

  /** Deleting a configuration undoes its being saved under a new name, and nothing else. */
  lemma DeleteUndoes(disk: Disk, config: string, saved: Disk, after: Disk)
    requires config !in disk.configs && Step(disk, Save(config), saved) && Step(saved, Delete(config), after)
    ensures after == disk
    ensures FileName(config) <==> config in saved.configs
  {
    hide ConfigText, Lists, FileName;
    var procs, chans := OrdersOf(disk, Save(config), saved);
    Writes(disk.configs, config, ConfigText(disk, procs, chans));
    assert saved.configs - {config} == disk.configs;
  }

  /** The saved text of one process and one channel. */
  lemma SavedText(disk: Disk, proc: string, chan: string, more: string)
    requires proc in disk.procs && chan in disk.chans && Without(disk.procs[proc], '\n')
    requires disk.chans[chan] == "a:b:\n" + more
    ensures ConfigText(disk, [proc], [chan])
         == "proc:" + proc + ":" + disk.procs[proc] + "\n" + "chan:" + chan + ":a:b:\n"
  {
    hide FirstLine, RosterText, FileName;
    FirstLines(disk.procs[proc], "");
    FirstLines("a:b:", more);
    assert disk.chans[chan] == "a:b:" + ['\n'] + more;
    OneEntry(TagOf(Procs), proc, disk.procs);
    OneEntry(TagOf(Chans), chan, disk.chans);
  }

  lemma FirstLines(line: string, more: string)
    requires Without(line, '\n')
    ensures FirstLine(line) == FirstLine(line + ['\n'] + more) == line
  {
    hide Pieces;
    PieceEnds(line, more, '\n');
  }

  lemma OneEntry(tag: string, name: string, folder: Folder)
    requires name in folder
    ensures RosterText(tag, [name], folder) == tag + ":" + name + ":" + FirstLine(folder[name]) + "\n"
  {
    hide FirstLine, FileName;
    RosterTextFrom(tag, [name], folder, 0);
    RosterTextFrom(tag, [name], folder, 1);
    assert [name][0..] == [name];
  }

  // ----- The manager -----

  class Manager {
    var procs: Folder
    var chans: Folder
    var configs: Folder

    constructor ()
      ensures procs == map[] && chans == map[] && configs == map[]
    {
      procs, chans, configs := map[], map[], map[];
    }

    function OnDisk(): (disk: Disk)
      reads this
    {
      Disk(procs, chans, configs)
    }

    method GrabFiles(folder: Folder) returns (names: seq<string>)
      ensures Lists(names, folder)
    {
      names := [];
      var rest := folder.Keys;
      while rest != {}
        invariant rest <= folder.Keys
        invariant forall i :: 0 <= i < |names| ==> names[i] in folder && names[i] !in rest
        invariant forall name :: name in folder ==> name in rest || name in names
        invariant forall i, j :: 0 <= i < j < |names| ==> names[i] != names[j]
        decreases rest
      {
        var name :| name in rest;
        names, rest := names + [name], rest - {name};
      }
    }

    method ComponentsText(components: seq<string>) returns (text: string)
      ensures text == Terminated(components, ':')
    {
      hide Terminated;
      text := "";
      assert components[0..] == components;
      for i := 0 to |components|
        invariant text + Terminated(components[i..], ':') == Terminated(components, ':')
      {
        TerminatedFrom(components, ':', i);
        text := text + components[i] + ":";
      }
      TerminatedFrom(components, ':', |components|);
    }

    method Register(roster: Roster, description: string) returns (okay: bool)
      modifies this`procs, this`chans
      ensures OnDisk() == Registered(old(OnDisk()), roster, description)
      ensures okay == (Fewest(roster) <= |Components(description, ':')|)
    {
      var components, count := SplitComponents(description, ':');
      if count < Fewest(roster) { return false; }
      var text := ComponentsText(components[1..]);
      if roster.Procs? {
        procs := Write(procs, components[0], text);
      } else {
        chans := Write(chans, components[0], text);
      }
      return true;
    }

    method Remove(folder: Folder, file: string) returns (rest: Folder)
      ensures rest == folder - {file}
    {
      rest := folder;
      var names := GrabFiles(folder);
      for i := 0 to |names|
        invariant rest == if file in names[..i] then folder - {file} else folder
      {
        if names[i] == file { rest := rest - {file}; }
      }
      assert names[..|names|] == names;
      assert file !in folder ==> folder - {file} == folder;
    }

    method Unregister(roster: Roster, file: string)
      modifies this`procs, this`chans
      ensures OnDisk() == WithRoster(old(OnDisk()), roster, RosterOf(old(OnDisk()), roster) - {file})
    {
      if roster.Procs? { procs := Remove(procs, file); } else { chans := Remove(chans, file); }
    }

    method DeleteConfig(config: string)
      modifies this`configs
      ensures OnDisk() == old(OnDisk()).(configs := old(configs) - {config})
    {
      configs := Remove(configs, config);
    }

    /** One roster as text, file by file as listed. */
    method RosterLines(tag: string, folder: Folder) returns (text: string, ghost names: seq<string>)
      ensures Lists(names, folder) && text == RosterText(tag, names, folder)
    {
      hide Pieces, Entry, RosterText, Lists, FileName;
      text := "";
      var files := GrabFiles(folder);
      names := files;
      assert files[0..] == files;
      for i := 0 to |files|
        invariant text + RosterText(tag, files[i..], folder) == RosterText(tag, files, folder)
      {
        RosterTextFrom(tag, files, folder, i);
        text := text + Entry(tag, files[i], ContentsOf(folder, files[i])) + "\n";
      }
      RosterTextFrom(tag, files, folder, |files|);
    }

    method SaveConfig(config: string)
      modifies this`configs
      ensures Step(old(OnDisk()), Save(config), OnDisk())
    {
      var first, procNames := RosterLines(TagOf(Procs), procs);
      var second, chanNames := RosterLines(TagOf(Chans), chans);
      configs := Write(configs, config, first + second);
      assert OnDisk() == Performed(old(OnDisk()), Save(config), procNames, chanNames);
    }

    method RemoveAll(folder: Folder) returns (rest: Folder)
      ensures rest == map[]
    {
      rest := folder;
      var names := GrabFiles(folder);
      for i := 0 to |names|
        invariant forall name :: name in rest ==> name in names[i..]
      {
        rest := rest - {names[i]};
      }
    }

    method ClearCurrentConfig() returns (ghost procNames: seq<string>, ghost chanNames: seq<string>)
      modifies this
      ensures Lists(procNames, old(procs)) && Lists(chanNames, old(chans))
      ensures OnDisk() == Cleared(old(OnDisk()), procNames, chanNames)
    {
      SaveConfig(LAST_CONFIG);
      procNames, chanNames :| Lists(procNames, procs) && Lists(chanNames, chans)
        && OnDisk() == Performed(old(OnDisk()), Save(LAST_CONFIG), procNames, chanNames);
      procs := RemoveAll(procs);
      chans := RemoveAll(chans);
    }

    method LoadLine(line: string)
      requires ReadableLine(line)
      modifies this`procs, this`chans
      ensures OnDisk() == LineLoaded(old(OnDisk()), line)
    {
      hide Pieces, Terminated;
      TagsDiffer();
      var components, count := SplitComponents(line, ':');
      if count < 1 { return; }
      if components[0] == TagOf(Procs) || components[0] == TagOf(Chans) {
        var text := ComponentsText(components[2..]);
        if components[0] == TagOf(Procs) {
          procs := Write(procs, components[1], text);
        } else {
          chans := Write(chans, components[1], text);
        }
      }
    }

    method LoadLines(text: string)
      requires Readable(text)
      modifies this`procs, this`chans
      ensures OnDisk() == LinesLoaded(old(OnDisk()), Pieces(text, '\n'))
    {
      hide Pieces, LineLoaded, LinesLoaded, ReadableLine, FileName, Without;
      ghost var lines := Pieces(text, '\n');
      LinesLoadedMore(OnDisk(), [], "");
      ghost var done: seq<string> := [];
      var last, more := 0, true;
      assert text[0..] == text;
      while more
        invariant last <= |text|
        invariant lines == done + (if more then Pieces(text[last..], '\n') else [])
        invariant OnDisk() == LinesLoaded(old(OnDisk()), done)
        decreases |text| - last, more
      {
        var found, pos := Find(text, '\n', last);
        CutAt(text, '\n', last, pos);
        var line := text[last..pos];
        assert !found ==> line == text[last..];
        assert lines[|done|] == line;
        LoadLine(line);
        LinesLoadedMore(old(OnDisk()), done, line);
        done := done + [line];
        more := found;
        last := if found then pos + 1 else pos;
      }
      assert done + [] == done;
    }

    method LoadConfigRaw(config: string) returns (ghost procNames: seq<string>, ghost chanNames: seq<string>)
      requires config in configs
      requires forall p, c :: Lists(p, procs) && Lists(c, chans) ==> LoadsReadably(OnDisk(), config, p, c)
      modifies this
      ensures Lists(procNames, old(procs)) && Lists(chanNames, old(chans))
      ensures LoadsReadably(old(OnDisk()), config, procNames, chanNames)
      ensures OnDisk() == Loaded(old(OnDisk()), config, procNames, chanNames)
    {
      hide Pieces, LinesLoaded, ConfigText, Readable, Lists;
      ghost var before := OnDisk();
      procNames, chanNames := ClearCurrentConfig();
      assert LoadsReadably(before, config, procNames, chanNames);
      LoadLines(configs[config]);
    }

    /** Reports whether the configuration exists. What the program takes for granted is that no label stands alone in
        the text it is about to read. */
    method LoadConfig(config: string) returns (existed: bool)
      requires forall p, c :: Lists(p, procs) && Lists(c, chans) ==> LoadsReadably(OnDisk(), config, p, c)
      modifies this
      ensures Step(old(OnDisk()), Load(config), OnDisk())
      ensures existed == (config in old(configs))
    {
      hide Pieces, LinesLoaded, ConfigText, Readable, Loaded, LoadsReadably, Lists, FileName;
      existed := false;
      var names := GrabFiles(configs);
      ghost var procNames := GrabFiles(procs);
      ghost var chanNames := GrabFiles(chans);
      for i := 0 to |names|
        invariant existed == (config in names[..i])
        invariant !existed ==> OnDisk() == old(OnDisk())
        invariant Lists(procNames, old(procs)) && Lists(chanNames, old(chans))
        invariant LoadsReadably(old(OnDisk()), config, procNames, chanNames)
        invariant existed ==> OnDisk() == Loaded(old(OnDisk()), config, procNames, chanNames)
      {
        if names[i] == config {
          existed := true;
          procNames, chanNames := LoadConfigRaw(config);
        }
      }
      assert names[..|names|] == names;
      assert existed == (config in old(configs));
      NotLoaded(old(OnDisk()), config, procNames, chanNames);
      assert OnDisk() == Performed(old(OnDisk()), Load(config), procNames, chanNames);
    }
  }
}
