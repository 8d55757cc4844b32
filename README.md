# consola basic reporter, modelled in Dafny

This project models `BasicReporter` from consola's `src/reporters/basic.js`. The reporter turns one log
record into one newline-terminated line and hands that line to a sink. It works in three steps:

- **Field extraction** (`getFields`). It derives `message`, `type`, `tag`, `date` and `additional`
  from the record and its arguments. A field the record sets is never overwritten. An error-like
  argument (one with a truthy `stack`) can fill an empty message with its own message. It also sets an
  empty type to `"error"` and fills an empty tag with its code. When no message results, the first
  rendered argument is shifted out and becomes the message.
- **Line assembly** (`formatLogObj`, `log`). It builds five segments: date, tag, type, message and
  additional. It drops the segments that are empty or exactly `"[]"`, joins the rest with single
  spaces and appends a newline.
- **Dispatch** (`write`, `log`). It picks the error stream when the record is an error and the normal
  stream otherwise. The mode is `"async"` or `"default"` according to the `async` option. The
  constructor merges the caller's options over `DEFAULTS`, key by key.

Layout:

- `wrappers.dfy`: `Option` (JavaScript's `undefined`) and `Result` (a value, or an exception thrown).
- `strings.dfy`: `Join` (`Array.prototype.join`), `Split`, and lemmas about them, including that splitting a joined sequence gives it back.
- `values.dfy`: the data model (`Value`, `LogObj`, `Fields`, `Date`).
  - It holds `Hooks`, the collaborators whose code is not part of this model, as uninterpreted total
    functions.
  - It also renders one argument (`formatStack`, `formatArg`).
- `extraction.dfy`: `getFields` as a declarative specification (`FieldsOf`, `Extract`) and the lemmas
  for its precedence rules.
- `line.dfy`: the five segments (`Segments`), the filter (`Survivors`) and the line (`LineOf`).
- `reporter.dfy`: the options and their merge, and the class `BasicReporter`.
  - The class has the constructor and `Write`.
  - It has `MapArgs`, the loop over the arguments, with `TakeArg` as its body.
  - It has `GetFields`, proved equal to `Extract`.
  - It has `FormatLogObj` and `Log`.

Modelling choices:

- The collaborators are fields of one `Hooks` value, which the reporter keeps as a constant. They are
  `parseStack`, `JSON.stringify`, `util.formatWithOptions`/`util.format`, `formatDate`,
  `toUpperCase` and `leftAlign`.
- The clock (`new Date()`) is the parameter `now`.
- `writeStream` is not called. `Write` and `Log` return the request it would receive: the text, the
  sink and the mode.
- A falsy string property (absent, `undefined` or `""`) is `""`.
- An argument that is `null` or `undefined` makes `arg.stack` throw a TypeError. The model returns
  `Failure(CannotReadStack)` for it, and nothing is written.

## Model

| member | source | states |
|---|---|---|
| `Strings.JoinAppend` | src/reporters/basic.js:80 | `join` puts exactly one separator where two non-empty runs of elements meet |
| `Strings.SplitJoin` | src/reporters/basic.js:80 | splitting a joined sequence on a one-character separator that no element contains gives back the elements, so `join` places the separator between neighbours only |
| `Values.IsErrorLike` | src/reporters/basic.js:57 | defines the `arg.stack` test: an argument is error-like when it has a non-empty stack |
| `Values.FormatStack` | src/reporters/basic.js:27-29 | defines `formatStack`, `" at "` followed by the parsed frames joined with `"\n at "`; its contract says the block always starts with `" at "` |
| `Values.FormatArg` | src/reporters/basic.js:31-42 | defines `formatArg`: a plain object goes through `stringify`, any other value through `inspect` |
| `Values.Render` | src/reporters/basic.js:56-71 | defines the `map` callback's result: the stack block for an error-like argument, `formatArg` otherwise |
| `Values.StackLines` | src/reporters/basic.js:27-29 | a stack block is one line per frame, each `" at "` plus the frame, when frames hold no line break; no frames give `" at "` |
| `Values.Rendered` | src/reporters/basic.js:55-72 | one rendering per argument, in the arguments' order, each as `Render` gives it (error-like: the stack block; plain object: `stringify`; other: `inspect`) |
| `Extraction.MessageAfter` | src/reporters/basic.js:58-60 | a message that is already set stays; an empty one that becomes non-empty takes the message of some error-like argument |
| `Extraction.TypeAfter` | src/reporters/basic.js:61-63 | a type that is already set stays; an empty one becomes `"error"` exactly when some argument is error-like, and stays `""` otherwise |
| `Extraction.TagAfter` | src/reporters/basic.js:64-66 | a tag that is already set stays; an empty one that becomes non-empty takes the code of some error-like argument |
| `Extraction.FieldsOf` | src/reporters/basic.js:48-89 | the declarative `getFields`: a message, type or tag set on the record is kept, and the date is the record's or else the clock's |
| `Extraction.Extract` | src/reporters/basic.js:48-89 | `getFields` as a whole: it throws `CannotReadStack` exactly when some argument is null or undefined, and otherwise gives `FieldsOf` |
| `Extraction.FirstSome` | src/reporters/basic.js:58-66 | the offer taken is that of some argument, and there is none exactly when no argument offers one |
| `Extraction.MessageAfterAppend` | src/reporters/basic.js:57-60 | seeing some arguments and then more settles the message as seeing them all at once: once set, a message is never replaced |
| `Extraction.TypeAfterAppend` | src/reporters/basic.js:57-63 | seeing some arguments and then more settles the type as seeing them all at once |
| `Extraction.TagAfterAppend` | src/reporters/basic.js:57-66 | seeing some arguments and then more settles the tag as seeing them all at once |
| `Extraction.MessagePrecedence` | src/reporters/basic.js:49 | a non-empty record message is the resulting message, whatever the arguments are and in whatever order |
| `Extraction.MessageFromFirstError` | src/reporters/basic.js:58-60 | with no record message, the first error-like argument with a message supplies it |
| `Extraction.TypeInference` | src/reporters/basic.js:50-63 | a non-empty record type is kept; an empty one becomes `"error"` exactly when some argument has a truthy stack, and stays `""` otherwise |
| `Extraction.TagFromFirstCode` | src/reporters/basic.js:51-66 | with no record tag, the tag is the code of the first error-like argument that has a code, and `""` when none has one |
| `Extraction.TypeNeverOverridden` | src/reporters/basic.js:61-63 | appending arguments never changes a type that is already settled |
| `Extraction.TagNeverOverridden` | src/reporters/basic.js:64-66 | appending arguments never changes a tag that is already settled |
| `Extraction.MessageNeverOverridden` | src/reporters/basic.js:58-60 | appending arguments never changes a message supplied by the record or by an earlier error-like argument |
| `Extraction.MessageEmptyIff` | src/reporters/basic.js:49-77 | the message is empty exactly when the record, every error-like argument and the first rendering all offer nothing |
| `Extraction.FallbackMessage` | src/reporters/basic.js:75-80 | when nothing supplies a message, the message is the rendering of the first argument and `additional` joins the renderings of the rest; otherwise `additional` joins all renderings; with no arguments it is `""` |
| `Extraction.AdditionalLines` | src/reporters/basic.js:55-80 | when no rendering spans lines, the lines of `additional` are the renderings of the arguments not used as the message, in order, each once |
| `Line.Segments` | src/reporters/basic.js:91-105 | always exactly five segments: date, tag, type, message, additional |
| `Line.Keep` | src/reporters/basic.js:109 | defines the filter of `log`: a segment survives unless it is empty or exactly `"[]"` |
| `Line.Survivors` | src/reporters/basic.js:109 | never more survivors than segments |
| `Line.SurvivorsMembers` | src/reporters/basic.js:109 | a segment survives exactly when it is neither empty nor `"[]"` |
| `Line.SurvivorsAppend` | src/reporters/basic.js:109 | filtering distributes over concatenation, so survivors keep their order |
| `Line.SurvivorsOfFive` | src/reporters/basic.js:98-109 | of five segments, each survives or not on its own, in its own position |
| `Line.EmptyTagDropped` | src/reporters/basic.js:100-109 | an empty tag's segment never survives, and no survivor is `"[]"` |
| `Line.LineOf` | src/reporters/basic.js:108-110 | the line always ends in a newline |
| `Line.LineOfAppend` | src/reporters/basic.js:109-110 | the line of two runs of segments with survivors is the first run's survivors joined by spaces, one space, then the second run's, then the newline |
| `Line.LineWords` | src/reporters/basic.js:110 | the line without its newline, split on spaces, gives back the survivors when none contains a space; with no survivors the line is `"\n"` |
| `Reporter.Defaults` | src/reporters/basic.js:8-12 | defines `DEFAULTS`: standard output, standard error and the date format `"HH:mm:ss"` |
| `Reporter.Merge` | src/reporters/basic.js:8-16 | every option the caller gives wins, every other keeps its default, and no options leave the defaults |
| `Reporter.MergeExtremes` | src/reporters/basic.js:16 | giving every key replaces the defaults entirely, and giving none keeps them |
| `Reporter.ModeOf` | src/reporters/basic.js:107-114 | the mode is `"async"` exactly when the option is true, and `"default"` when it is false or not given |
| `Reporter.BasicReporter.constructor` | src/reporters/basic.js:15-17 | the options are the caller's merged over `DEFAULTS` |
| `Reporter.BasicReporter.Write` | src/reporters/basic.js:19-25 | the data and mode are forwarded; the sink is the error stream when `error` holds and the normal stream otherwise |
| `Reporter.BasicReporter.TakeArg` | src/reporters/basic.js:56-71 | one non-null argument settles message, type and tag as seeing it after the earlier ones does, and its rendering is `Render` of it |
| `Reporter.BasicReporter.MapArgs` | src/reporters/basic.js:55-72 | the loop throws exactly when some argument is null or undefined; otherwise it leaves the supplied message, type and tag and one rendering per argument in order |
| `Reporter.BasicReporter.GetFields` | src/reporters/basic.js:48-89 | returns exactly `Extract`: a TypeError for a null or undefined argument, otherwise the declaratively specified fields |
| `Reporter.BasicReporter.FormatLogObj` | src/reporters/basic.js:91-105 | for a record that is not null, throws exactly when an argument is nullish; otherwise returns the five segments of the specified fields with the reporter's date format |
| `Reporter.BasicReporter.Log` | src/reporters/basic.js:107-116 | for a record and an options argument that are not null, throws exactly when an argument is nullish; otherwise the line of those segments, ending in a newline, goes to the error stream when the record is an error and to the normal stream otherwise, in mode `"async"` exactly when the option is true |

## Left out

- `writeStream`, `process.stdout` and `process.stderr` are I/O. `Write` returns the request instead of
  performing it. Whether the write blocks or not is up to the sink.
- `util.formatWithOptions` and `util.format` are not modelled, nor is the Node-version probe that
  chooses between them or ANSI colouring. All of this is the single uninterpreted hook `inspect`.
- `JSON.stringify` and `isPlainObject` are not modelled. The caller classifies an argument as `Plain`,
  and serialising it is the hook `stringify`. Serialisation failures, such as circular structures,
  are not modelled.
- `parseStack`, `formatDate`, `leftAlign` and `toUpperCase` are uninterpreted hooks. Their files are
  not part of this model. No claim is made about padding or truncation. So there is no claim that an
  empty type's segment is dropped.
- With a message and nothing else, the line reads `[<date>] <message>` only if `leftAlign("", 7)` is
  `""`. That depends on code outside this model, so the model follows `basic.js` and claims nothing
  about it.
- A record's empty type becomes `"error"` whenever some argument is error-like, even one that has no
  message. This follows basic.js:61-63, where setting the type does not depend on the message.
- `new Date()` is not called. The clock is the parameter `now`.
- Non-string property values are not modelled, such as a numeric `code` or `message`. JavaScript would
  take their `.length` as `undefined`. Every text property is a string, and `""` stands for falsy.
- Options are not modelled past their three keys.
  - A key present with an `undefined` value is not modelled. `Object.assign` would copy it over the
    default.
  - Extra option keys are not modelled.
  - Inherited properties are not modelled.
- `Reporter.BasicReporter.Log`: two throws of `log` are not modelled, and the parameter types exclude
  them. A `null` options argument throws a TypeError at basic.js:107, because the default `= {}` applies
  only to `undefined`. A `null` or `undefined` record throws at basic.js:49, when `logObj.message` is
  read. `LogObj` is never null, and `async: Option<bool>` has no null, so the model's failure case is
  only the nullish argument. The same holds for `Reporter.BasicReporter.FormatLogObj` and
  `Reporter.BasicReporter.GetFields` on a null record.
- A missing `args` array is not modelled. `LogObj.args` is always a sequence, so the TypeError from
  `.map` on `undefined` cannot arise.
- Truthiness of `error` and `async` is not modelled beyond booleans.
- An object whose `stack` is empty is not error-like, and it renders through `inspect`. This treats an
  `Error` as not a plain object.
