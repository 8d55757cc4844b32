/** The data the basic reporter reads and produces, the collaborators it calls
    without this model seeing their code, and the rendering of one argument
    (src/reporters/basic.js:27-42). */
module Values {
  import opened Wrappers
  import opened Strings

  /** A timestamp; only `formatDate` looks inside it. */
  datatype Date = Date(epochMillis: int)

  /** One argument of a log call.  JavaScript tells them apart by duck typing;
      here the shape is explicit.  An empty string stands for an absent or
      falsy property.  `handle` identifies a value whose content only the
      rendering collaborators look at. */
  datatype Value =
    | ErrorLike(stack: string, message: string, code: string)  // an object with a `stack` property
    | Plain(handle: nat)                                          // a plain attribute-mapping object
    | Opaque(handle: nat)                                         // any other non-null value
    | Nullish                                                     // null or undefined

  /** What extraction can throw: reading `stack` of null or undefined is a TypeError. */
  datatype JsError = CannotReadStack

  /** A log record, as passed to `log`.  Absent or falsy `message`, `type` and
      `tag` are "". */
  datatype LogObj = LogObj(
    message: string,
    logType: string,
    tag: string,
    date: Option<Date>,
    args: seq<Value>,
    error: bool)

  /** What `getFields` returns. */
  datatype Fields = Fields(
    additional: string,
    date: Date,
    message: string,
    tag: string,
    logType: string)

  /** The collaborators imported from elsewhere or provided by the runtime,
      as total functions the model knows nothing about. */
  datatype Hooks = Hooks(
    parseStack: string -> seq<string>,    // ../utils/error parseStack
    stringify: Value -> string,           // JSON.stringify, indented by 2
    inspect: Value -> string,             // util.formatWithOptions with colours, or util.format
    formatDate: (string, Date) -> string, // ../utils/date formatDate(pattern, date)
    upper: string -> string,              // String.prototype.toUpperCase
    leftAlign: (string, nat) -> string)   // ../utils/string leftAlign(str, width)

  /** The `arg.stack` test: an argument is error-like when its stack is truthy. */
  predicate IsErrorLike(v: Value) {
    v.ErrorLike? && v.stack != ""
  }

  /** `formatStack`: " at " before the first frame and "\n at " between frames. */
  function FormatStack(h: Hooks, stack: string): (r: string)
    ensures |r| >= 4 && r[..4] == " at "
  {
    " at " + Join(h.parseStack(stack), "\n at ")
  }

  /** `formatArg`: plain objects are serialised, everything else is inspected. */
  function FormatArg(h: Hooks, v: Value): (r: string)
  {
    if v.Plain? then h.stringify(v) else h.inspect(v)
  }

  /** How `getFields` renders one argument. */
  function Render(h: Hooks, v: Value): (r: string)
  {
    if IsErrorLike(v) then FormatStack(h, v.stack) else FormatArg(h, v)
  }

  /** `logObj.args.map(...)`: one rendering per argument, in order. */
  function Rendered(h: Hooks, args: seq<Value>): (r: seq<string>)
    ensures |r| == |args|
    ensures forall k :: 0 <= k < |args| ==> r[k] == Render(h, args[k])
  {
    seq(|args|, k requires 0 <= k < |args| => Render(h, args[k]))
  }

  /** A stack block is one line per frame, each " at " followed by the frame,
      provided the frames have no line breaks of their own; no frames give " at ". */
  lemma StackLines(h: Hooks, stack: string)
    ensures h.parseStack(stack) == [] ==> FormatStack(h, stack) == " at "
    ensures var frames := h.parseStack(stack);
      frames != [] && (forall k :: 0 <= k < |frames| ==> '\n' !in frames[k]) ==>
        Split(FormatStack(h, stack), '\n') == Prefixed(" at ", frames)
  {
    var frames := h.parseStack(stack);
    if frames != [] && (forall k :: 0 <= k < |frames| ==> '\n' !in frames[k]) {
      JoinPrefixed(" at ", "\n", frames);
      assert "\n" + " at " == "\n at ";
      var lines := Prefixed(" at ", frames);
      forall k | 0 <= k < |lines| ensures '\n' !in lines[k] {
        assert lines[k] == " at " + frames[k];
      }
      SplitJoin(lines, '\n');
    }
  }
}
