/** The `BasicReporter` class (src/reporters/basic.js:8-117): its options, the
    loop of `getFields`, and the choice of sink and write mode. */
module Reporter {
  import opened Wrappers
  import opened Strings
  import opened Values
  import opened Extraction
  import opened Line

  /** A write target; a caller-supplied stream is known by an identity. */
  datatype Sink = Stdout | Stderr | Stream(id: nat)

  /** The reporter's effective options. */
  datatype Options = Options(stream: Sink, errStream: Sink, dateFormat: string)

  /** The options a caller passes; `None` is a key left out. */
  datatype UserOptions = UserOptions(stream: Option<Sink>, errStream: Option<Sink>, dateFormat: Option<string>)

  /** `DEFAULTS`: standard output, standard error, "HH:mm:ss". */
  const Defaults: Options := Options(Stdout, Stderr, "HH:mm:ss")

  /** `Object.assign({}, defaults, user)`: each key the caller gives wins, the others
      keep their defaults; no options at all leave the defaults. */
  function Merge(defaults: Options, user: Option<UserOptions>): (r: Options)
    ensures user.None? ==> r == defaults
    ensures user.Some? ==>
      r.stream == user.value.stream.GetOr(defaults.stream) &&
      r.errStream == user.value.errStream.GetOr(defaults.errStream) &&
      r.dateFormat == user.value.dateFormat.GetOr(defaults.dateFormat)
  {
    match user
    case None => defaults
    case Some(u) => Options(u.stream.GetOr(defaults.stream), u.errStream.GetOr(defaults.errStream),
                            u.dateFormat.GetOr(defaults.dateFormat))
  }

  /** Every key given: the defaults are entirely replaced, whatever they were. */
  function Full(o: Options): UserOptions {
    UserOptions(Some(o.stream), Some(o.errStream), Some(o.dateFormat))
  }

  /** Merging is shallow and key by key: giving every key replaces the defaults,
      giving none keeps them. */
  lemma MergeExtremes(defaults: Options, o: Options)
    ensures Merge(defaults, Some(Full(o))) == o
    ensures Merge(defaults, Some(UserOptions(None, None, None))) == defaults
  {
  }

  /** What `write` hands to `writeStream`: the text, the chosen sink and the mode. */
  datatype WriteRequest = WriteRequest(data: string, sink: Sink, mode: string)

  /** The mode `log` asks for: "async" exactly when the `async` option is true;
      when it is false or not given, "default". */
  function ModeOf(async: Option<bool>): (r: string)
    ensures r == "async" <==> async == Some(true)
    ensures r == "default" <==> async != Some(true)
  {
    if async.GetOr(false) then "async" else "default"
  }

  /** The locals of `getFields` after its pass over the arguments. */
  datatype Pass = Pass(message: string, logType: string, tag: string, rendered: seq<string>)

  class BasicReporter {
    /** The collaborators the source imports; fixed for the life of the reporter. */
    const hooks: Hooks
    var options: Options

    constructor (hooks: Hooks, user: Option<UserOptions>)
      ensures this.hooks == hooks
      ensures options == Merge(Defaults, user)
    {
      this.hooks := hooks;
      options := Merge(Defaults, user);
    }

    /** `write`: the error stream when `error` holds, the normal stream otherwise. */
    method Write(data: string, error: bool, mode: string) returns (r: WriteRequest)
      ensures r.data == data && r.mode == mode
      ensures error ==> r.sink == options.errStream
      ensures !error ==> r.sink == options.stream
    {
      r := WriteRequest(data, if error then options.errStream else options.stream, mode);
    }

    /** The function `getFields` maps over the arguments: it fills the fields one
        non-null argument may fill and renders that argument. */
    method TakeArg(arg: Value, message: string, logType: string, tag: string)
      returns (message': string, logType': string, tag': string, s: string)
      requires !arg.Nullish?
      ensures message' == MessageAfter(message, [arg])
      ensures logType' == TypeAfter(logType, [arg])
      ensures tag' == TagAfter(tag, [arg])
      ensures s == Render(hooks, arg)
    {
      message', logType', tag' := message, logType, tag;
      if arg.ErrorLike? && arg.stack != "" {
        if |message'| == 0 && arg.message != "" {
          message' := arg.message;
        }
        if |logType'| == 0 {
          logType' := "error";
        }
        if |tag'| == 0 && arg.code != "" {
          tag' := arg.code;
        }
        s := FormatStack(hooks, arg.stack);
      } else {
        s := FormatArg(hooks, arg);
      }
      assert [arg][0] == arg;
    }

    /** The `logObj.args.map(...)` pass of `getFields`: the fields it leaves and the
        renderings, or the TypeError of the first null or undefined argument. */
    method MapArgs(rec: LogObj) returns (r: Result<Pass, JsError>)
      ensures AnyNullish(rec.args) ==> r == Failure(CannotReadStack)
      ensures !AnyNullish(rec.args) ==>
        r == Success(Pass(SuppliedMessage(rec), SuppliedType(rec), SuppliedTag(rec), Rendered(hooks, rec.args)))
    {
      var message := rec.message;
      var logType := rec.logType;
      var tag := rec.tag;
      var args: seq<string> := [];
      ghost var seen: seq<Value> := [];
      var i := 0;
      while i < |rec.args|
        invariant 0 <= i <= |rec.args| && seen == rec.args[..i]
        invariant forall k :: 0 <= k < i ==> !rec.args[k].Nullish?
        invariant |args| == i && forall k :: 0 <= k < i ==> args[k] == Render(hooks, rec.args[k])
        invariant message == MessageAfter(rec.message, seen)
        invariant logType == TypeAfter(rec.logType, seen)
        invariant tag == TagAfter(rec.tag, seen)
      {
        var arg := rec.args[i];
        if arg.Nullish? {
          return Failure(CannotReadStack);
        }
        MessageAfterAppend(rec.message, seen, [arg]);
        TypeAfterAppend(rec.logType, seen, [arg]);
        TagAfterAppend(rec.tag, seen, [arg]);
        var s;
        message, logType, tag, s := TakeArg(arg, message, logType, tag);
        args := args + [s];
        seen := seen + [arg];
        i := i + 1;
      }
      assert seen == rec.args;
      assert args == Rendered(hooks, rec.args);
      r := Success(Pass(message, logType, tag, args));
    }

    /** `getFields`: the pass over the arguments, then the fallback shift and the join. */
    method GetFields(rec: LogObj, now: Date) returns (r: Result<Fields, JsError>)
      ensures r == Extract(hooks, rec, now)
    {
      var date := if rec.date.Some? then rec.date.value else now;
      var pass :- MapArgs(rec);
      var message, args := pass.message, pass.rendered;
      if |message| == 0 && |args| > 0 {
        message := args[0];
        args := args[1..];
      }
      r := Success(Fields(Join(args, "\n"), date, message, pass.tag, pass.logType));
    }

    /** `formatLogObj`: the five segments of the record's line, or what
        `getFields` throws. */
    method FormatLogObj(rec: LogObj, now: Date) returns (r: Result<seq<string>, JsError>)
      ensures r.Failure? <==> AnyNullish(rec.args)
      ensures r.Success? ==> r.value == Segments(hooks, options.dateFormat, FieldsOf(hooks, rec, now))
    {
      var fields :- GetFields(rec, now);
      var date := hooks.formatDate(options.dateFormat, fields.date);
      var logType := hooks.leftAlign(hooks.upper(fields.logType), TypeWidth);
      r := Success(["[" + date + "]", "[" + fields.tag + "]", "[" + logType + "]", fields.message, fields.additional]);
    }

    /** `log`: the record's line, to the error stream exactly when the record is an
        error, in the mode the `async` option asks for; nothing is written when
        extraction throws. */
    method Log(rec: LogObj, async: Option<bool>, now: Date) returns (r: Result<WriteRequest, JsError>)
      ensures r.Failure? <==> AnyNullish(rec.args)
      ensures r.Success? ==>
        r.value.data == LineOf(Segments(hooks, options.dateFormat, FieldsOf(hooks, rec, now))) &&
        r.value.data[|r.value.data| - 1] == '\n' &&
        (rec.error ==> r.value.sink == options.errStream) &&
        (!rec.error ==> r.value.sink == options.stream) &&
        r.value.mode == ModeOf(async)
    {
      var segs :- FormatLogObj(rec, now);
      var line := LineOf(segs);
      var request := Write(line, rec.error, ModeOf(async));
      r := Success(request);
    }
  }
}
