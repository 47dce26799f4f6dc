/** The decision logic of the Kaggle downloader script: which argument
    combinations it accepts, which directory a download lands in, which
    command the external `kaggle` tool is given, and how a run ends.
    Directory creation, the subprocess and process exit are not modelled;
    the subprocess's captured output is a parameter. */
module KaggleDownloader {
  import opened Wrappers
  import opened Strings

  /** The pre-defined competitions: short name to the command that downloads it. */
  const Competitions: map<string, string> := map[
    "bulldozers" := "kaggle competitions download -c bluebook-for-bulldozers",
    "titanic" := "kaggle competitions download -c titanic"
  ]

  /** Root directory of all downloads, relative to the script's directory. */
  const DataDir: string := "../data/"

  /** The invocation every raw api command must contain. */
  const KaggleApiCmd: string := "kaggle competitions download -c"

  /** What the tool prints when the user has not joined the competition. */
  const ForbiddenMarker: string := "403 - Forbidden"

  /** The extract flag: 0 = extract after download, 1 = do not. */
  predicate ExtractFlagOk(extract: int) {
    extract == 0 || extract == 1
  }

  /** The argument combinations the script is meant to accept: a valid
      extract flag and exactly one source of the download, either a
      registered competition or a raw command naming the kaggle invocation. */
  ghost predicate WellFormedRequest(competition: Option<string>, api: Option<string>, extract: int) {
    && ExtractFlagOk(extract)
    && (|| (competition.Some? && api.None? && competition.value in Competitions)
        || (competition.None? && api.Some? && Occurs(api.value, KaggleApiCmd)))
  }

  /** `inputValidator`. An argument counts as given whenever it is not
      `None`, so an empty string is a given argument. */
  function InputValidator(competition: Option<string>, api: Option<string>, extract: int): (ok: bool)
    ensures ok <==> WellFormedRequest(competition, api, extract)
    ensures competition.Some? && api.Some? ==> !ok
    ensures !ExtractFlagOk(extract) ==> !ok
    ensures competition.None? && api.None? ==> !ok
    ensures ok ==> (competition.Some? <==> api.None?)
    ensures api.None? && ExtractFlagOk(extract) ==>
      (ok <==> competition == Some("bulldozers") || competition == Some("titanic"))
    ensures competition.None? && ExtractFlagOk(extract) ==>
      (ok <==> api.Some? && Occurs(api.value, KaggleApiCmd))
  {
    if competition.Some? && api.Some? then
      false
    else if ExtractFlagOk(extract) && api.None? && competition.Some? && competition.value in Competitions then
      true
    else if ExtractFlagOk(extract) && api.Some? && Contains(api.value, KaggleApiCmd) && competition.None? then
      true
    else
      false
  }

  /** The directory name `setUpDirectories` derives from a raw api command:
      every occurrence of the kaggle invocation removed, then every space. */
  function ApiDirName(api: string): (name: string)
    ensures ' ' !in name
    ensures !Occurs(name, KaggleApiCmd)
    ensures name == Strip(ReplaceAll(api, KaggleApiCmd, ""), ' ')
  {
    var withoutCmd := ReplaceAll(api, KaggleApiCmd, "");
    RemoveCharIsStrip(withoutCmd, ' ');
    CommandHasSpace();
    NoOccurrenceWithout(Strip(withoutCmd, ' '), KaggleApiCmd, ' ');
    ReplaceAll(withoutCmd, " ", "")
  }

  /** The invocation contains a space, so a space-free name cannot contain it. */
  lemma CommandHasSpace()
    ensures ' ' in KaggleApiCmd
  {
  }

  /** The leaf directory `setUpDirectories` creates and enters. `None` when
      neither branch applies: the directory name stays empty and creating it
      fails. */
  function LeafDir(competition: Option<string>, api: Option<string>): (leaf: Option<string>)
    ensures leaf.None? <==> !(competition.Some? && competition.value in Competitions) && api.None?
    ensures leaf.Some? ==> StartsWith(leaf.value, DataDir) && leaf.value[|leaf.value| - 1] == '/'
    ensures competition.Some? && competition.value in Competitions ==>
      leaf == Some(DataDir + competition.value + "/")
    ensures !(competition.Some? && competition.value in Competitions) && api.Some? ==>
      leaf == Some(DataDir + ApiDirName(api.value) + "/")
  {
    if competition.Some? && competition.value in Competitions then
      Some(DataDir + competition.value + "/")
    else if api.Some? then
      Some(DataDir + ApiDirName(api.value) + "/")
    else
      None
  }

  /** The command `downloadKaggleFiles` hands to the tool: the registered
      command for a named competition, otherwise the raw api command,
      otherwise the empty command. `None` is the failed registry lookup for
      a name that is not registered. */
  function DownloadCommand(competition: Option<string>, api: Option<string>): (cmd: Option<string>)
    ensures cmd.None? <==> competition.Some? && competition.value !in Competitions
    ensures competition.Some? && competition.value in Competitions ==>
      cmd == Some(Competitions[competition.value])
    ensures competition.Some? && cmd.Some? ==> cmd.value in Competitions.Values
    ensures competition.Some? && cmd.Some? ==> Occurs(cmd.value, KaggleApiCmd)
    ensures competition.None? && api.Some? ==> cmd == api
    ensures competition.None? && api.None? ==> cmd == Some("")
  {
    if competition.Some? then
      if competition.value in Competitions then
        RegisteredCommandsInvokeKaggle(competition.value);
        Some(Competitions[competition.value])
      else
        None
    else if api.Some? then
      Some(api.value)
    else
      Some("")
  }

  /** Every registered command starts with the kaggle invocation. */
  lemma RegisteredCommandsInvokeKaggle(name: string)
    requires name in Competitions
    ensures OccursAt(Competitions[name], KaggleApiCmd, 0)
  {
  }

  /** The check `downloadKaggleFiles` makes on the tool's output. */
  function AccessDenied(output: string): (denied: bool)
    ensures denied <==> Occurs(output, ForbiddenMarker)
  {
    Contains(output, ForbiddenMarker)
  }

  /** How a run of the script ends. */
  datatype Outcome =
    | InvalidInput
    | Forbidden(leaf: string, command: string)
    | Downloaded(leaf: string, command: string, extracted: bool)

  /** One run of the script: default the extract flag, validate, set up the
      leaf directory, run the download command (whose captured output is
      `output`), stop on the forbidden marker, and otherwise extract when the
      flag is 0. */
  function Run(competition: Option<string>, api: Option<string>, extract: Option<int>, output: string): (o: Outcome)
    ensures o.InvalidInput? <==> !InputValidator(competition, api, extract.GetOr(0))
    ensures o.Forbidden? <==> !o.InvalidInput? && Occurs(output, ForbiddenMarker)
    ensures o.Downloaded? ==> (o.extracted <==> extract.GetOr(0) == 0)
    ensures o.Downloaded? && extract.None? ==> o.extracted
    ensures !o.InvalidInput? ==> Occurs(o.command, KaggleApiCmd)
    ensures !o.InvalidInput? ==> StartsWith(o.leaf, DataDir)
    ensures !o.InvalidInput? ==>
      LeafDir(competition, api) == Some(o.leaf) && DownloadCommand(competition, api) == Some(o.command)
  {
    var flag := extract.GetOr(0);
    if !InputValidator(competition, api, flag) then
      InvalidInput
    else
      var leaf := LeafDir(competition, api).value;
      var command := DownloadCommand(competition, api).value;
      if AccessDenied(output) then Forbidden(leaf, command)
      else Downloaded(leaf, command, flag == 0)
  }

  /** A raw command of the documented shape `kaggle competitions download -c <name>`
      lands in the directory `<name>`, for every name without spaces. */
  lemma {:induction false} ApiLeafIsDatasetName(name: string)
    requires ' ' !in name
    ensures LeafDir(None, Some(KaggleApiCmd + " " + name)) == Some(DataDir + name + "/")
  {
    var api := KaggleApiCmd + " " + name;
    assert StartsWith(api, KaggleApiCmd);
    assert api[|KaggleApiCmd|..] == " " + name;
    SpacedNameLacksCommand(name);
    ReplaceAllAbsent(" " + name, KaggleApiCmd, "");
    assert ReplaceAll(api, KaggleApiCmd, "") == " " + name;
    StripAbsent(name, ' ');
  }

  /** One pass of `replace` can join the pieces around a removed invocation
      into a new one, so the first `replace` of the derived name alone does
      not rid it of the invocation; the space removal does. */
  lemma RemovalCanLeaveCommand()
    ensures ReplaceAll(KaggleApiCmd[..1] + KaggleApiCmd + KaggleApiCmd[1..], KaggleApiCmd, "")
         == KaggleApiCmd
    ensures Occurs(ReplaceAll(KaggleApiCmd[..1] + KaggleApiCmd + KaggleApiCmd[1..], KaggleApiCmd, ""),
                   KaggleApiCmd)
  {
    RemovalRejoins(KaggleApiCmd);
    assert OccursAt(KaggleApiCmd, KaggleApiCmd, 0);
  }

  /** `" " + name` cannot hold the kaggle invocation when `name` has no space:
      the invocation does not start with a space and has one at index 6. */
  lemma SpacedNameLacksCommand(name: string)
    requires ' ' !in name
    ensures !Occurs(" " + name, KaggleApiCmd)
  {
    var t := " " + name;
    forall i | 0 <= i && i + |KaggleApiCmd| <= |t|
      ensures !OccursAt(t, KaggleApiCmd, i)
    {
      if i == 0 {
        assert t[i..i + |KaggleApiCmd|][0] == ' ' != KaggleApiCmd[0];
      } else {
        assert t[i..i + |KaggleApiCmd|][6] == name[i + 5] != KaggleApiCmd[6];
      }
    }
  }

  /** The command `kaggle competitions download -c titanic` is downloaded
      into `../data/titanic/`, the same directory as the registered name. */
  lemma TitanicApiLeaf()
    ensures LeafDir(None, Some("kaggle competitions download -c titanic")) == Some("../data/titanic/")
    ensures LeafDir(Some("titanic"), None) == Some("../data/titanic/")
  {
    ApiLeafIsDatasetName("titanic");
    TitanicSpelledOut();
  }

  /** The titanic command and directory, spelled out. */
  lemma TitanicSpelledOut()
    ensures KaggleApiCmd + " " + "titanic" == "kaggle competitions download -c titanic"
    ensures DataDir + "titanic" + "/" == "../data/titanic/"
  {
  }

  /** The bare invocation is accepted as a raw command, and its directory name
      is empty, so the download goes to `../data//`, the data root itself. */
  lemma BareCommandUsesDataRoot()
    ensures InputValidator(None, Some(KaggleApiCmd), 0)
    ensures LeafDir(None, Some(KaggleApiCmd)) == Some(DataDir + "/")
  {
  }

  /** The derived name keeps `.` and `/`: the command
      `kaggle competitions download -c ..` is accepted, and its leaf
      `../data/../` is the parent of the data root. */
  lemma ParentNameLeavesDataRoot()
    ensures InputValidator(None, Some(KaggleApiCmd + " .."), 0)
    ensures LeafDir(None, Some(KaggleApiCmd + " ..")) == Some("../data/../")
  {
    assert OccursAt(KaggleApiCmd + " ..", KaggleApiCmd, 0);
    assert KaggleApiCmd + " " + ".." == KaggleApiCmd + " ..";
    ApiLeafIsDatasetName("..");
    assert DataDir + ".." + "/" == "../data/../";
  }

  /** Every accepted request has a leaf directory and a download command, and
      that command contains the kaggle invocation. */
  lemma AcceptedRequestResolves(competition: Option<string>, api: Option<string>, extract: int)
    requires InputValidator(competition, api, extract)
    ensures LeafDir(competition, api).Some?
    ensures DownloadCommand(competition, api).Some?
    ensures Occurs(DownloadCommand(competition, api).value, KaggleApiCmd)
  {
  }

  /** Named titanic with the default flag: the run downloads the registered
      command into `../data/titanic/` and extracts, unless access is denied. */
  lemma TitanicScenario(output: string)
    requires !Occurs(output, ForbiddenMarker)
    ensures Run(Some("titanic"), None, None, output)
         == Downloaded("../data/titanic/", "kaggle competitions download -c titanic", true)
  {
  }

  /** A raw command without the kaggle invocation is rejected before anything happens. */
  lemma ForeignCommandScenario(output: string)
    ensures Run(None, Some("notkaggle download stuff"), Some(0), output) == InvalidInput
  {
  }
}
