# Publish logic of `operator-index.py`, modelled in Dafny

`operator-index.py` builds OLM catalog index images from a list of operator
bundles with the external `opm` index builder, and publishes them with a
container runtime (docker or podman). This project models the deterministic
part of that script:

- the settings (`OperatorBundle`, `OperatorIndex`, `OperatorIndexSettings`)
  and the argument string `generate_command_line` renders for `opm`, with the
  tag-extension suffix `do_build` appends (`index_settings.dfy`);
- the choice of container runtime, `_determine_runtime`, from the output
  lines of `which docker` / `which podman` and an "is a symbolic link" test
  (`runtime_choice.dfy`);
- the body of the `push` command: the two searches of the local image list,
  the build-or-retag decision, the extra tags and the push order
  (`publish.dfy`). `Publish.Push` is a method with the source's loops and
  `break`s; it is proved equal to the function `Publish.PushSpec`, and the
  properties are lemmas about that function;
- the local image store of the runtime, to state which plans can actually
  run (`local_images.dfy`).

Every subprocess the script would start becomes an `Action` in a plan:
`Build(extension)` for the nested `do_build`, `RunTag(src, dst)` and
`RunPush(ref)` for the runtime commands, and `RetagConstructed(src, dst)` for
the retag at operator-index.py:373-376. That retag calls the generator
function `shell` without iterating it, so its subprocess is never started;
the model records it as prepared and not run. `Publish.CommandText` gives the
exact command line of each action, and the `...Argv` lemmas give the words
the program receives, reading the command line as split at single blanks,
which is what `shlex.split` yields for words without whitespace, quotes or
backslashes (`IndexSettings.PlainWord`).

Three behaviours of the code are worth stating outright:

- With an extension requested and only the plain tag present, the code
  counts the plain tag as found (operator-index.py:348-354) and does not
  fail, even with building off; for a non-empty extension E that the
  configured tag does not already end with, it prepares a retag to
  `img:tag-E` (`Publish.GenericFallback`, `Publish.FallbackExample`).
- Nothing stops an extra tag from naming the working tag; it is then tagged
  onto itself and pushed twice.
- An empty extension passes the `is not None` tests but not the truthiness
  test at operator-index.py:368, so it is searched for and built as
  `img:tag-` but never causes a retag (`Publish.EmptyExtension`).

## Model

| member | source | states |
|---|---|---|
| `RuntimeChoice.DetermineRuntime` | operator-index.py:117-130 | docker is chosen exactly when some `which docker` line ends in `/docker` and is not a symlink; podman exactly when no docker line qualifies and some podman line ends in `/podman` and is not a symlink; otherwise the choice fails |
| `IndexSettings.BuildArgv` | operator-index.py:96-114 | the build command splits into exactly `opm index add --build-tool R --bundles B --tag T`, where T is `img:tag` or, with an extension E, `img:tag-E` |
| `IndexSettings.BundlesRoundTrip` | operator-index.py:101-104 | for a non-empty bundle list, the `--bundles` value reads back, split at commas, as each bundle's `img:tag` in configured order, when no image or tag contains a comma |
| `IndexSettings.GenerateCommandLine` | operator-index.py:96-114 | the builder arguments start with a blank, which separates them from the builder's path, and end with `--tag` and the configured `img:tag` |
| `IndexSettings.ExtensionAppendsToCommand` | operator-index.py:302-304 | with an extension E the build command is the plain command followed by `-E`, and the built image is `img:tag-E` |
| `IndexSettings.BuildCommand` | operator-index.py:302-304 | the build command starts with the builder's path and a blank, and ends with ` --tag ` and the built reference, so the appended suffix only extends the index tag |
| `IndexSettings.CommandLineExample` | operator-index.py:110-114 | one bundle `a:1`, index `idx:v1`, docker give ` index add --build-tool docker --bundles a:1 --tag idx:v1` |
| `Publish.Search` | operator-index.py:339-354 | the searches report found exactly when the extended tag (with an extension) or the configured tag equals some local image, and settle on the extended tag in preference to the configured one |
| `Publish.TagAndPush` | operator-index.py:385-395 | after the earlier actions come one tag command from the working tag per extra reference, in order, then a push per extra reference and the push of the working tag |
| `Publish.Decide` | operator-index.py:356-377 | the decision fails exactly when nothing was found and building is off, builds exactly when nothing was found, and with a non-empty extension E always leaves a working tag ending in `-E` |
| `Publish.Push` | operator-index.py:328-395 | the whole push step yields exactly the plan or the failure of the reference function `PushSpec` |
| `Publish.CommandText` | operator-index.py:373-392 | a build command starts with the builder's path; every runtime command starts with the runtime name and a blank and ends with the tag target or pushed reference |
| `Publish.RuntimeCommandArgv` | operator-index.py:385-392 | a tag command reaches the runtime as the words `R tag src dst`, a push as `R push ref` |
| `Publish.PushOrder` | operator-index.py:392-395 | the pushes are the extra tags qualified as `img:t`, in order and with duplicates kept, then the working tag last: one more push than extra tags |
| `Publish.ExtraTagCommands` | operator-index.py:379-390 | exactly one tag command runs per extra tag, targeting `img:t` in the order given, and every tag command that runs starts from the working tag |
| `Publish.ExtendedMatchTakesPrecedence` | operator-index.py:339-346 | when `img:tag-E` is a local image it is the working tag, with no build and no retag, whatever else is present |
| `Publish.GenericFallback` | operator-index.py:348-377 | when only `img:tag` is present it counts as found; a non-empty extension E it does not already end with gives a prepared retag to `img:tag-E` and that working tag, otherwise `img:tag` stays the working tag |
| `Publish.MissingImage` | operator-index.py:356-367 | with neither tag present the step fails when building is off, and otherwise builds with the same extension and works with `img:tag` or `img:tag-E` |
| `Publish.DecisionIff` | operator-index.py:339-377 | failure exactly when no tag is present and building is off; a build exactly when no tag is present; a retag exactly when a tag was found that needs the extension; presence is exact equality with a local image |
| `Publish.EmptyExtension` | operator-index.py:339-377 | an empty extension never retags: the working tag is `img:tag` when only that is present and `img:tag-` otherwise |
| `Publish.ConfiguredTagAlreadyExtended` | operator-index.py:368-377 | a configured tag that already ends in `-E` is found plainly and not retagged, so `img:tag` is the working tag |
| `Publish.AlreadyExtendedCounterexample` | operator-index.py:368-377 | as written, with configured tag `v1-ci` and extension `ci`, finding `idx:v1-ci` keeps the working tag `idx:v1-ci`, while a build makes `idx:v1-ci-ci` |
| `Publish.IntendedDecide` | operator-index.py:356-377 | with the retag keyed to whether the extended tag was found, a non-empty extension E always gives the working tag `img:tag-E`, and failure is unchanged |
| `Publish.IntendedDecideAgrees` | operator-index.py:368-377 | the keyed decision equals the source's whenever the configured tag does not itself end in `-E` |
| `Publish.FallbackExample` | operator-index.py:348-377 | with only `idx:v1` present, extension `ci` and building off, the step does not fail: it prepares the retag to `idx:v1-ci` and pushes `idx:v1-ci` |
| `LocalImages.TagIsIdempotent` | operator-index.py:385-390 | applying the same tag command twice leaves the same local images as applying it once |
| `LocalImages.AsWrittenExecutableWithoutRetag` | operator-index.py:356-395 | when no retag is prepared, every tag and push of the plan finds the image it needs |
| `LocalImages.AsWrittenRetagNeverExecutable` | operator-index.py:368-395 | as written, every plan that prepares a retag fails: the extended working tag is absent and the next tag or push needs it |
| `LocalImages.RetagNotRunCounterexample` | operator-index.py:373-376 | as written, with only `idx:v1` present and extension `ci`, the plan pushes `idx:v1-ci`, which no step has created |
| `LocalImages.CorrectedPushIsExecutable` | operator-index.py:368-395 | with the retag run, every tag and push of the plan finds the image it needs, for all inputs |

## Left out

- `shell` (subprocess spawning, output streaming, exit on a non-zero status): each command is an action in the plan; exit statuses are not modelled, so every started command is taken to succeed.
- `install_opm`: network download, file writes, permissions and symlinks; the builder's path is a parameter.
- `OperatorIndexSettings.load` and `load_settings`: YAML parsing; the settings are an input value.
- `make_logger`, every log call, the click command wiring, the Linux platform check and `utf8ify`.
- The `which` lookup and `os.path.islink`: the output lines and a link predicate are parameters of `RuntimeChoice.DetermineRuntime`.
- The runtime choice inside `push` and again inside `generate_command_line`: the runtime is a parameter, taken to be the same both times.
- The listing `runtime images --format ...`: its output lines are the `images` input of `Publish.Push`.
- `IndexSettings.BundlesRoundTrip`: holds for a non-empty bundle list only; with no bundles the `--bundles` value is empty, the source renders `--bundles  --tag ...`, and `shlex.split` drops the empty word, which splitting at single blanks does not model.
- `IndexSettings.BuildArgv`: `shlex.split` is modelled as splitting at single blanks, which matches it only for words without whitespace, quotes or backslashes; the lemma requires that of its words.

## Findings

| source | as written | input that shows it | evidently intended | confidence | as-written member | corrected member |
|---|---|---|---|---|---|---|
| operator-index.py:373-376 | the retag calls the generator `shell` without iterating it, so `runtime tag img:tag img:tag-E` never runs, yet `img:tag-E` becomes the working tag that is tagged from and pushed | local images `["idx:v1"]`, extension `ci`, building off: `push idx:v1-ci` with no image `idx:v1-ci` present | run the retag (iterate `shell`) before tagging and pushing the extended tag | high (not executed) | `LocalImages.AsWrittenRetagNeverExecutable`, with the instance `LocalImages.RetagNotRunCounterexample` | `LocalImages.CorrectedPushIsExecutable` |
| operator-index.py:368 | a found image is retagged only when the working tag does not already end in `-E`, which cannot tell a tag found by the extended search from a configured tag that itself ends in `-E` | configured tag `v1-ci`, extension `ci`, local image `idx:v1-ci`: the working tag stays `idx:v1-ci`, whereas a build would make `idx:v1-ci-ci` | retag whenever the extended tag was not found, so that a non-empty extension always yields `img:tag-E` | medium (not executed) | `Publish.AlreadyExtendedCounterexample` | `Publish.IntendedDecide` |
