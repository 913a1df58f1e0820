# Buildpacks decision logic in Dafny

This project models three small pieces of decision logic from a set of Cloud
Native buildpacks, and proves properties of them.

- **Next.js version logic** (`pkg/nodejs/nextjs.go`, module `NextJs`).
  `DetectAdaptorVersion` turns the declared Next.js version or range into the
  major.minor specifier used to fetch the Next.js build adaptor. `Version`
  finds the installed Next.js version. It reads `pnpm-lock.yaml`,
  `yarn.lock`, `npm-shrinkwrap.json` and `package-lock.json` in that order,
  and falls back to the `package.json` specifier.
- **apphosting.yaml validation** (`pkg/firebase/apphostingschema/apphostingschema.go`,
  module `AppHostingSchema`). It range-checks the five optional run-config
  numbers, checks each environment variable (value xor secret, availability
  tags BUILD/RUNTIME only), and loads a missing file as the empty schema.
- **Web-server override properties** (`pkg/webconfig/webconfig.go`, module
  `WebConfig`). It decides which override files apply, builds the
  `OverrideProperties` record, patches it in place from `composer.json`, and
  sets the layer's environment variables from it.

Supporting modules:
- `GoStrings` (`strings.dfy`) defines the Go string operations the code uses
  (`HasPrefix`, `Contains`, `Split`, `Join`, `Fields`, `Trim`, `FormatUint`).
  It also proves the facts about them that the model needs, for example that
  `Join(Split(s, sep), sep) == s`.
- `Wrappers` (`wrappers.dfy`) defines `Option` and `Result`.

The form follows the source:
- The four loops of `nextjs.go` are loops of three methods, each with its loop
  invariants. `DetectAdaptorVersion` holds the clause loop (line 90). Its
  result is tied to `RewriteAll`, the clause-by-clause rewrite. `Version`
  holds the lockfile loop (line 131). It calls `ScanYarnLock` for the nested
  yarn.lock loops over blocks and lines (lines 145 and 147). These loops are
  proved equal to the recursive functions `ResolveFrom`, `YarnBlocks` and
  `VersionLine`. The promised properties are lemmas about those functions.
- The apphosting validators are pure functions.
- `OverrideProperties` is a class. Its patch method states its whole new state
  in terms of the old one.
- `SetEnvVariables` updates the two environment maps of a `Layer` object.

External parts become inputs:
- The semver library becomes the `Semver` record of two functions (strict
  parse; range parse followed by `Constraint.String()`).
- The YAML and JSON decoders become functions from the file text to an
  optional decoded record.
- `os.ReadFile` becomes a map of readable files (`AppFiles.readable`), or a
  `FileRead` value (`NotExist | ReadError | Contents`).
- `ctx.FileExists` becomes a function to `Exists | Missing | CheckFailed`.

Behaviour of the code that the model keeps as written:
- In yarn.lock, a block that mentions `next@` and the declared specifier but
  has no line containing `version` is skipped. The scan goes on to the next
  block (`YarnBlocks`, `YarnFirstMatchingBlock`).
- A pnpm or npm lockfile that decodes returns its value at once, even an empty
  one. The `package.json` fallback is then not used (`PnpmWins`,
  `ShrinkwrapThird`).
- A yarn line that contains `version` but has fewer than two white-space
  fields makes `strings.Fields(line)[1]` panic with an index out of range. The
  model returns `Panicked` in that case (`VersionField`).
- A strict `<` stays strict whenever the patch segment *starts with* `0`, so
  `05` and `0-rc1` also keep `<` (`StrictLessRewrite`).
- A dotted pre-release such as `<14.0.1-rc.1` splits into four segments on
  `.`, so the clause stays exactly as written, even with a nonzero patch
  (`RewriteClauseOtherSegments`).
- Clauses with other than three dot-separated segments pass through unchanged
  (`RewriteClauseOtherSegments`).
- The minInstances error text says `[1, 100]`, but the enforced range is
  `[0, 100]`. The model keeps both exactly as written
  (`RunConfigError.Message`, `MinInstancesZeroAccepted`).

## Model

| member | source | states |
|---|---|---|
| `NextJs.DetectAdaptorVersion` | pkg/nodejs/nextjs.go:79-111 | A strict version gives exactly `FormatUint(major) + "." + FormatUint(minor)`. An input that is neither a strict version nor a range gives `"latest"`. For a range, splitting the result on spaces gives every clause of `Constraint.String()` rewritten by `RewriteClause`, one part per clause, in the same order. |
| `NextJs.RewriteAllRoundTrip` | pkg/nodejs/nextjs.go:90-110 | Splitting the space-joined rewritten clauses on spaces gives the rewritten clauses back, one per clause of the range, in order. |
| `NextJs.RewriteComparator` | pkg/nodejs/nextjs.go:97-104 | The comparator segment either stays as it is, or gets one `=` inserted after a leading `<` or `>`. The rest of the segment is kept. The segment starts with `<` (or `>`) after the rewrite exactly when it did before. |
| `NextJs.StrictVersionAdaptor` | pkg/nodejs/nextjs.go:80-83 | The adaptor version of a strict version splits on "." into exactly two decimal parts, and they parse back to the major and minor numbers. Patch, pre-release and build metadata play no part. |
| `NextJs.RewriteClauseOtherSegments` | pkg/nodejs/nextjs.go:91-93 | A clause with other than three dot-separated segments passes through unchanged: Split then Join is the identity. |
| `NextJs.RewriteClauseThreeSegments` | pkg/nodejs/nextjs.go:93-108 | A three-segment clause becomes its rewritten comparator segment, a dot and the minor segment. The patch segment is dropped. |
| `NextJs.StrictLessRewrite` | pkg/nodejs/nextjs.go:97-100 | A segment starting with `<` but not `<=` becomes `<=` exactly when the patch does not start with "0". Otherwise it is left alone. |
| `NextJs.StrictGreaterRewrite` | pkg/nodejs/nextjs.go:102-104 | A segment starting with `>` but not `>=` always becomes `>=`. |
| `NextJs.OtherComparatorsKept` | pkg/nodejs/nextjs.go:97-104 | A segment that starts with `<=`, `>=` or anything other than a strict `<`/`>` keeps its comparator. |
| `NextJs.RewriteClauseKeepsCharOut` | pkg/nodejs/nextjs.go:90-108 | Rewriting adds no character other than `.`, `<`, `>`, `=`. In particular it adds no space, so the clauses stay separable after the final join. |
| `NextJs.RewriteDottedClause` | pkg/nodejs/nextjs.go:91-108 | A clause `op.minor.patch` whose segments hold no dot becomes the rewritten comparator segment, a dot and the minor segment. |
| `NextJs.RewriteLessExample` | pkg/nodejs/nextjs.go:94-100 | `<14.0.15` becomes `<=14.0`. |
| `NextJs.RewriteLessZeroExample` | pkg/nodejs/nextjs.go:94-100 | `<14.0.0` keeps its strict comparator and becomes `<14.0`. |
| `NextJs.RewriteGreaterExample` | pkg/nodejs/nextjs.go:101-104 | `>13.0.2` becomes `>=13.0`. |
| `NextJs.Version` | pkg/nodejs/nextjs.go:130-166 | Returns exactly `InstalledVersion`: the lockfiles in priority order, each returning as soon as it yields, then the package.json specifier. |
| `NextJs.ScanYarnLock` | pkg/nodejs/nextjs.go:142-154 | The nested scan over blank-line blocks and their lines returns exactly `YarnVersion`. |
| `NextJs.LockfileYield` | pkg/nodejs/nextjs.go:132-161 | Only a readable file among the four lockfile names can yield. A readable pnpm lockfile yields exactly when it decodes, and so does a readable npm lockfile. A readable yarn.lock yields its `YarnVersion`. Only yarn.lock can yield the panic. |
| `NextJs.FirstYieldDecides` | pkg/nodejs/nextjs.go:131-163 | The first lockfile that yields decides the result. No later file and not the fallback is consulted. |
| `NextJs.NoYieldFallsBack` | pkg/nodejs/nextjs.go:131-165 | When no lockfile yields, the result is the declared specifier. |
| `NextJs.NoLockfilesFallsBack` | pkg/nodejs/nextjs.go:165 | With none of the four lockfiles readable, the result is `package.json`'s `next` specifier. |
| `NextJs.FallbackExample` | pkg/nodejs/nextjs.go:165 | With no lockfiles and `next` declared as `^14.0.0`, the result is `^14.0.0`. |
| `NextJs.PnpmWins` | pkg/nodejs/nextjs.go:135-139 | A decodable pnpm-lock.yaml decides with the text before the first "(" of `dependencies.next.version`. This holds even when that text is empty. |
| `NextJs.YarnSecond` | pkg/nodejs/nextjs.go:142-153 | Without a usable pnpm lockfile, a yarn.lock that yields decides: its version, or the panic. |
| `NextJs.ShrinkwrapThird` | pkg/nodejs/nextjs.go:156-160 | Without a usable pnpm or yarn lockfile, a decodable npm-shrinkwrap.json decides with `packages["node_modules/next"].version` verbatim. That value is "" when the key is missing. |
| `NextJs.PackageLockFourth` | pkg/nodejs/nextjs.go:35 | package-lock.json is consulted after the other three. If it does not decode, the package.json specifier is the result. |
| `NextJs.BeforeParen` | pkg/nodejs/nextjs.go:138 | The result is a prefix of the version with no "(" in it. It ends just before the first "(", or at the end of the version. |
| `NextJs.BeforeParenOf` | pkg/nodejs/nextjs.go:138 | For a version `x(rest)` where `x` has no "(", the result is `x`. |
| `NextJs.PnpmQualifierExample` | pkg/nodejs/nextjs.go:138 | `14.2.3(react@18.2.0)` gives `14.2.3`. |
| `NextJs.VersionLine` | pkg/nodejs/nextjs.go:147-148 | The chosen line is the first line of the block that contains "version": every line before it lacks "version". None means no line of the block contains it. |
| `NextJs.VersionField` | pkg/nodejs/nextjs.go:149 | The line panics exactly when it has fewer than two white-space fields. Otherwise the version is the second field with a run of `"` removed from each end: it occurs in the field, everything before and after it is `"`, and it neither starts nor ends with `"`. |
| `NextJs.VersionFieldOf` | pkg/nodejs/nextjs.go:149 | A line made of indentation, a key, white space and one more word resolves to that word with its surrounding `"` trimmed. |
| `NextJs.BareVersionLine` | pkg/nodejs/nextjs.go:149 | An indented visible-ASCII key followed by an unquoted version resolves to that version. |
| `NextJs.QuotedVersionLine` | pkg/nodejs/nextjs.go:149 | The same line with the version in double quotes resolves to the unquoted version. |
| `NextJs.YarnClassicVersionLine` | pkg/nodejs/nextjs.go:143-149 | The yarn 1 line `  version "v"` gives `v`, for any visible-ASCII version such as 14.2.3. |
| `NextJs.YarnBerryVersionLine` | pkg/nodejs/nextjs.go:143-149 | The yarn 2+ line `  version: v` gives the same `v`. |
| `NextJs.YarnBlocksNone` | pkg/nodejs/nextjs.go:145-153 | yarn.lock yields nothing exactly when no block both mentions `next@` and the declared specifier and has a line containing "version". Scanning then moves on to the next lockfile. |
| `NextJs.YarnFirstMatchingBlock` | pkg/nodejs/nextjs.go:145-150 | The result comes from the first block that matches and has a line containing "version": that line's second field, quotes trimmed. |
| `GoStrings.JoinSplit` | pkg/nodejs/nextjs.go:91-108 | Joining the pieces of `strings.Split` with the same separator gives the input back. |
| `GoStrings.SplitJoin` | pkg/nodejs/nextjs.go:90-110 | Splitting the space-join of space-free clauses gives the clauses back, in order. |
| `GoStrings.FieldsEmpty` | pkg/nodejs/nextjs.go:149 | `strings.Fields` gives no field exactly when the line is all white space. |
| `GoStrings.FieldsFirstTwo` | pkg/nodejs/nextjs.go:149 | For optional white space, a word, white space, a second word and then white space or the end, the fields are those two words followed by the fields of the rest. |
| `GoStrings.Trim` | pkg/nodejs/nextjs.go:149 | The result is the input with a run of the character removed from each end: it occurs in the input, everything before and after it is that character, and it neither starts nor ends with it. |
| `GoStrings.TrimWrapped` | pkg/nodejs/nextjs.go:149 | A text that neither starts nor ends with `"` is unchanged by the trim, and so is the same text once its one pair of surrounding quotes is removed. |
| `GoStrings.ParseFormatUint` | pkg/nodejs/nextjs.go:82 | `strconv.FormatUint(n, 10)` parses back to `n`. |
| `AppHostingSchema.ValidateRunConfig` | pkg/firebase/apphostingschema/apphostingschema.go:79-111 | Accepts exactly the run configs where every present field is in range: cpu [1, 8], memory [512, 32768], concurrency [1, 1000], maxInstances [1, 100], minInstances [0, 100]. Absent fields never reject. The error names the first failing field in the order cpu, memory, concurrency, maxInstances, minInstances. |
| `AppHostingSchema.AbsentFieldsAccepted` | pkg/firebase/apphostingschema/apphostingschema.go:85-110 | A run config with every field absent passes. |
| `AppHostingSchema.CpuExamples` | pkg/firebase/apphostingschema/apphostingschema.go:86-88 | CPU 0.5 and CPU 9 are rejected as CPU errors, whatever the other fields hold. |
| `AppHostingSchema.MinInstancesZeroAccepted` | pkg/firebase/apphostingschema/apphostingschema.go:106-108 | minInstances 0 is accepted, despite the "[1, 100]" message text. 101 is rejected. |
| `AppHostingSchema.FirstInvalidAvailability` | pkg/firebase/apphostingschema/apphostingschema.go:69-73 | None exactly when every tag is BUILD or RUNTIME. This includes the empty list. Otherwise the result is the first tag, in list order, that is neither. |
| `AppHostingSchema.ValidateVariable` | pkg/firebase/apphostingschema/apphostingschema.go:55-76 | Accepts exactly the variables with one of value and secret non-empty and only valid tags. Both set gives the "both" error, and neither set gives the "either" error. Otherwise the error names the first invalid tag in list order. |
| `AppHostingSchema.ValueSecretExamples` | pkg/firebase/apphostingschema/apphostingschema.go:61-67 | value "x" with secret "y" fails, and neither set fails. |
| `AppHostingSchema.AvailabilityExamples` | pkg/firebase/apphostingschema/apphostingschema.go:69-73 | `["BUILD"]` and `[]` are accepted. `["STAGING"]` is rejected, naming STAGING. |
| `AppHostingSchema.FirstVariableError` | pkg/firebase/apphostingschema/apphostingschema.go:55-76 | No error exactly when every variable is well formed. Otherwise the error is `ValidateVariable`'s error for the first ill-formed variable in list order: every variable before it is well formed. |
| `AppHostingSchema.ValidateSchema` | pkg/firebase/apphostingschema/apphostingschema.go:55-111 | No error exactly when the run config is in range and every variable is well formed. An out-of-range run config is always reported, as the run-config error `ValidateRunConfig` gives. A variable error is reported only for an in-range run config, and it is `FirstVariableError`'s error. |
| `AppHostingSchema.ReadAndValidate` | pkg/firebase/apphostingschema/apphostingschema.go:115-129 | A missing file gives the empty schema and no error. Any other read error, a decode error or a validation error is an error. A validation failure carries exactly the error `ValidateSchema` reports. Otherwise the result is the decoded document unchanged. Every schema it returns is well formed, including every variable in it. |
| `AppHostingSchema.MissingFileIsEmpty` | pkg/firebase/apphostingschema/apphostingschema.go:118-121 | A missing file loads as the empty schema, whatever the decoder. The empty schema is well formed. |
| `WebConfig.OverrideProperty` | pkg/webconfig/webconfig.go:105-118 | A non-empty config value gives `(true, "/workspace/" + value)`. With an empty value, the flag is set exactly when the default file is reported to exist, and the path is then `"/workspace/" + default`. The flag is set exactly when a path is returned. |
| `WebConfig.ConfigValueIgnoresFiles` | pkg/webconfig/webconfig.go:106-108 | With a non-empty config value the result does not depend on the file-existence check. |
| `WebConfig.OverriddenProperties` | pkg/webconfig/webconfig.go:81-103 | A fresh record. Composer flags, document root and front controller are copied verbatim. The five flag/file-name pairs come from `OverrideProperty` with their default names. Worker settings and static-file serving are zero. |
| `WebConfig.OverrideProperties.Literal` | pkg/webconfig/webconfig.go:88-102 | The struct literal: the named fields as given, all others zero. |
| `WebConfig.OverrideProperties.PatchWithComposerConfig` | pkg/webconfig/webconfig.go:63-78 | Document root and front controller change only to a non-empty composer value. Both worker settings are always overwritten. Static-file serving becomes old-or-composer, so it is never reset to false. Composer flags and all five override pairs are unchanged. |
| `WebConfig.SetEnvVariables` | pkg/webconfig/webconfig.go:121-129 | The composer-args build variable is set to the flags only when they are non-empty. PHPRC is set at launch to the php.ini override file only when that override applies. Nothing else in either map changes. |

## Left out

- `InstallNextJsBuildAdaptor`, `downloadNextJsAdaptor` and `OverrideNextjsBuildScript` (pkg/nodejs/nextjs.go:52-127) are left out. They do layer-metadata caching, run npm, log, and set the libcnb build environment. All of that is I/O in the buildpack framework.
- The Masterminds semver parser is left out. `StrictNewVersion`, `NewConstraint` and `Constraint.String` are the `Semver` input: the model does not decide which texts parse, or how `String()` normalises a range. Only the clause rewriting is modelled.
- YAML and JSON decoding is left out. The decoded pnpm/npm version tables and the structurally decoded apphosting document are inputs (`decodePnpm`, `decodeNpm`, the `decode` argument), and `None` stands for any decode error.
- The file system and the `ctx` helpers are left out. `os.ReadFile`, `os.IsNotExist` and `ctx.FileExists` are inputs. `filepath.Join(ctx.ApplicationRoot(), name)` is a lookup by file name.
- Logging (`log.Printf` on a missing apphosting.yaml) is left out.
- `WorkspacePath` does not model `filepath.Join`'s path cleaning. It is `"/workspace" + "/" + name`, which agrees with `filepath.Join` only for a plain relative name without `.`, `..` or doubled or trailing slashes.
- `AppHostingSchema.ReadAndValidate` does not model key order. yaml.v2 runs the validation hooks as it meets each key, so when both the run config and a variable are invalid, the reported error depends on their order in the file. The model checks the run config first, and treats any structural decode error as coming before validation.
- `AppHostingSchema.ReadAndValidate` does not model yaml.v2's null nodes. yaml.v2 calls no `UnmarshalYAML` hook on a null node, so an `env` entry written as `~` decodes to an empty variable without the checks of apphostingschema.go:55-76 running, and Go returns the schema with no error. The model validates every decoded variable, so it rejects that document with the "either value or secret" error.
- `AppHostingSchema.ReadAndValidate` omits the wrapped error text (`reading apphosting config at <path>: ...`, `unmarshalling apphosting config as YAML: ...`). Its errors carry the cause only. It also does not return the partly filled schema that Go returns next to an error, which callers ignore.
- `AppHostingSchema.RunConfig` does not model the float32 CPU and the int32 fields. CPU is a real and the others are unbounded integers, because the code only compares them against bounds. Values outside int32 are rejected by the decoder, which is not part of this model.
- `WebConfig.SetEnvVariables` treats each layer environment as a map from variable name to override value. libcnb's own key encoding for overrides is not part of this model. The value of `php.ComposerArgsEnv` comes from pkg/php, which is not part of this model; it is taken to be `GOOGLE_COMPOSER_ARGS`.
- The unused `ctx` argument of `PatchWithComposerConfig` and of `overrideProperties` is left out, beyond the file-existence check. `composer.json` is reduced to its `extra.google-buildpacks` settings (`ComposerExtra`).
- `GoStrings.IsSpace` works on characters. The byte-to-rune decoding of invalid UTF-8 in `strings.Fields` is not modelled.
