# Kaggle downloader: decision logic

A Dafny model of the decisions made by the Kaggle downloader script
(`utils/kaggle_downloader.py`). The script downloads the files of a Kaggle
competition with the external `kaggle` tool. The competition comes either from
a pre-defined short name (`-c`) or from a raw `kaggle competitions download -c
…` command (`-a`), and `-e` says whether to extract the archives afterwards.
The model covers what the script decides, not what it does to the machine:

- `wrappers.dfy`: `Option`. It stands for Python's `None`-defaulted arguments and
  for operations that fail.
- `strings.dfy`: the Python string operations the script uses, with Python's
  semantics. `Contains` is `pat in s`. `ReplaceAll` is `s.replace(pat, rep)`,
  including the empty-pattern case. `IndexOf` has the semantics of Python's
  `s.find(pat)` and is the search behind `Contains`; the script itself never
  calls `find`. Lemmas connect them to a declarative notion of occurrence
  (`OccursAt`, `Occurs`). A second, find-based definition of `replace`
  (`ReplaceByFind`) is proved equal to the scanning one. Removing a single
  character is proved equal to the filter `Strip`.
- `kaggle_downloader.dfy`: the competition registry and the constants, then the
  script's logic:
  - `InputValidator` is `inputValidator`.
  - `LeafDir` and `ApiDirName` compute the directory `setUpDirectories` creates and enters.
  - `DownloadCommand` chooses the command in `downloadKaggleFiles`.
  - `AccessDenied` is the check for the `403 - Forbidden` marker.
  - `Run` is one whole run of the script: defaulting the extract flag,
    validating, setting up the directory, downloading, and then stopping on
    the marker or extracting when the flag is 0. It returns `Outcome` values.

An argument counts as given whenever it is not `None`, as in the code (`!=
None`). So `Some("")` is a given argument: `-c titanic -a ""` is rejected
because both are given.

Points the proofs bring out:

- Acceptance implies exactly one of competition and api is given.
- An accepted request always resolves to a leaf directory and to a command
  that contains `kaggle competitions download -c`.
- The derived directory name never contains a space, and never contains the
  invocation. The space removal is what guarantees the second fact: a single
  `replace` pass can leave an occurrence behind (`RemovalCanLeaveCommand`).
- The bare invocation `kaggle competitions download -c` is accepted as a raw
  command. Its directory name is empty, so the leaf is `../data//`, which is the
  data root itself.
- A leaf begins with the string `../data/`, but need not lie inside that
  directory: the derived name keeps `.` and `/`, so `kaggle competitions
  download -c ..` is accepted and leads to `../data/../`
  (`ParentNameLeavesDataRoot`).

## Model

| member | source | states |
|---|---|---|
| `KaggleDownloader.InputValidator` | utils/kaggle_downloader.py:42-50 | accepts iff the extract flag is 0 or 1 and either only a registered competition or only a command containing the kaggle invocation is given; rejects both-given whatever the flag, rejects any other flag, rejects neither-given; with api absent accepts exactly `bulldozers` and `titanic`; with competition absent accepts exactly the commands containing the invocation |
| `KaggleDownloader.RegisteredCommandsInvokeKaggle` | utils/kaggle_downloader.py:30-38 | every registered command begins with the invocation `kaggle competitions download -c` |
| `KaggleDownloader.ApiDirName` | utils/kaggle_downloader.py:66 | the name derived from a raw command has no space and no occurrence of the invocation, and is the command with the invocation removed and then every space filtered out, other characters kept in order |
| `KaggleDownloader.LeafDir` | utils/kaggle_downloader.py:60-67 | a registered competition gives `../data/<name>/`; otherwise a given command gives `../data/<derived name>/`; with neither the directory name stays empty (no leaf); every leaf begins with the string `../data/` and ends in `/` |
| `KaggleDownloader.SpacedNameLacksCommand` | utils/kaggle_downloader.py:38 | a space followed by a name without spaces never contains the invocation |
| `KaggleDownloader.ApiLeafIsDatasetName` | utils/kaggle_downloader.py:63-67 | for every name without spaces, the command `kaggle competitions download -c <name>` lands in `../data/<name>/` |
| `KaggleDownloader.TitanicApiLeaf` | utils/kaggle_downloader.py:63-67 | the command `kaggle competitions download -c titanic` and the registered name `titanic` both give `../data/titanic/` |
| `KaggleDownloader.BareCommandUsesDataRoot` | utils/kaggle_downloader.py:47-67 | the bare invocation is accepted and its leaf is `../data//`, the data root |
| `KaggleDownloader.DownloadCommand` | utils/kaggle_downloader.py:83-89 | a registered competition gets exactly its own registered command, which contains the invocation; an unregistered name fails the lookup; otherwise the raw command is used verbatim, and with neither the command is empty |
| `KaggleDownloader.ParentNameLeavesDataRoot` | utils/kaggle_downloader.py:47-67 | the command `kaggle competitions download -c ..` is accepted and its leaf is `../data/../`, the parent of the data root: the derived name keeps `.` and `/` |
| `KaggleDownloader.AcceptedRequestResolves` | utils/kaggle_downloader.py:86-89 | every request the validator accepts has a leaf directory and a command, and that command contains the invocation |
| `KaggleDownloader.AccessDenied` | utils/kaggle_downloader.py:96 | the run is denied exactly when the captured output contains `403 - Forbidden` |
| `KaggleDownloader.Run` | utils/kaggle_downloader.py:112-158 | the run is rejected iff the validator rejects the arguments with a missing flag read as 0; an accepted run stops as forbidden iff the output holds the marker; otherwise it extracts iff the flag is 0, so a missing flag extracts; every accepted run's leaf and command are exactly those `LeafDir` and `DownloadCommand` resolve for its arguments, the command contains the invocation, and the leaf begins with the string `../data/` |
| `KaggleDownloader.TitanicScenario` | utils/kaggle_downloader.py:145-158 | `-c titanic` with no flag and no marker in the output downloads the registered titanic command into `../data/titanic/` and extracts |
| `KaggleDownloader.ForeignCommandScenario` | utils/kaggle_downloader.py:151-158 | `-a "notkaggle download stuff" -e 0` is rejected as invalid input, whatever the output would be |
| `Strings.Contains` | utils/kaggle_downloader.py:47 | Python's `in` on strings: true exactly when the pattern occurs at some index, the empty pattern included |
| `Strings.IndexOfLeftmost` | utils/kaggle_downloader.py:47 | the search that `Contains` (the `in` of line 47) is computed by is correct: it returns an index where the pattern occurs with no occurrence before it, and reports none exactly when the pattern does not occur |
| `Strings.ReplaceAllAbsent` | utils/kaggle_downloader.py:66 | `replace` returns its input unchanged when the pattern does not occur |
| `Strings.ReplaceAllMatchesFind` | utils/kaggle_downloader.py:66 | the scanning `replace` equals the find-based definition: copy up to the leftmost occurrence, emit the replacement, continue after it |
| `Strings.RemoveCharIsStrip` | utils/kaggle_downloader.py:66 | `replace(' ', '')` is the filter that drops every space and keeps the other characters in order |
| `Strings.Strip` | utils/kaggle_downloader.py:66 | the filtered string has no occurrence of the character, and holds exactly the other characters of the input with their multiplicities |
| `Strings.RemovalRejoins` | utils/kaggle_downloader.py:66 | for every pattern whose first two characters differ, removing it from `pat[..1] + pat + pat[1..]` leaves exactly `pat` |
| `KaggleDownloader.RemovalCanLeaveCommand` | utils/kaggle_downloader.py:66 | the first `replace` of line 66, applied to `k` + invocation + `aggle competitions download -c`, returns the invocation itself, so one removal pass does not rid a command of the invocation |

## Left out

- Directory creation and entry (`exists`, `mkdir`, `chdir` in `setUpDirectories`) are filesystem side effects. Only the leaf path string is modelled, with an absent leaf where the code would call `mkdir('')`. Whether creating the leaf twice is harmless is a filesystem matter and is not stated.
- KaggleDownloader.LeafDir: promises only that the leaf begins with the string `../data/`, not that it names a directory inside the data root. A derived name containing `..` or `/` can leave the data root or nest below it. When a nested parent does not exist, `mkdir` raises `FileNotFoundError`, and `Run` has no outcome for that failure.
- The subprocess (`Popen`, `communicate`) and the `print` of its output are left out. The captured output is a parameter of `Run`. The marker test is made on the output text, not on the `str()` rendering of the captured bytes (`b'…'`). The two agree on plain ASCII output but can differ when escaped bytes sit next to the marker.
- KaggleDownloader.Run: assumes the command string is run as a command line, as on Windows. On POSIX, `Popen` given one string and no `shell=True` takes the whole string as the program's name, so it raises `FileNotFoundError` before any output exists and no accepted run reaches the marker test. The model has no outcome for this spawn failure.
- The child process's exit status and standard error are not inspected by the code, so the model has no outcome for them.
- `sys.exit` is modelled as the terminal `Outcome` values `InvalidInput` and `Forbidden`. The printed messages are not modelled.
- `argparse` parsing is left out. The parsed arguments are the model's inputs: optional strings and an optional integer flag.
- `extractFiles` is a stub that only prints. The model records only whether it is called (`Downloaded.extracted`). The `ZipFile` import is unused.
- `Strings.Surround` (the empty-pattern case of `replace`) is part of `ReplaceAll` for completeness. Its only contract is about length, and the script never calls `replace` with an empty pattern.
