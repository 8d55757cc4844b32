/** Field extraction, `getFields` (src/reporters/basic.js:48-89), as a
    declarative specification: which argument, if any, supplies each field.
    The loop that computes it is `Reporter.BasicReporter.GetFields`. */
module Extraction {
  import opened Wrappers
  import opened Strings
  import opened Values

  /** What an argument offers an empty `message`: an error-like argument's truthy message. */
  function ErrorMessage(v: Value): Option<string> {
    if IsErrorLike(v) && v.message != "" then Some(v.message) else None
  }

  /** What an argument offers an empty `tag`: an error-like argument's truthy code. */
  function ErrorCode(v: Value): Option<string> {
    if IsErrorLike(v) && v.code != "" then Some(v.code) else None
  }

  /** The offer of the first argument that makes one. */
  function FirstSome(s: seq<Value>, f: Value -> Option<string>): (r: Option<string>)
    ensures r.None? <==> forall k :: 0 <= k < |s| ==> f(s[k]).None?
    ensures r.Some? ==> exists k :: 0 <= k < |s| && f(s[k]) == r
  {
    if |s| == 0 then None
    else if f(s[0]).Some? then f(s[0])
    else FirstSome(s[1..], f)
  }

  /** Some argument has a truthy `stack`. */
  predicate AnyErrorLike(s: seq<Value>) {
    exists k :: 0 <= k < |s| && IsErrorLike(s[k])
  }

  /** A message that starts as `m` after the arguments `s` have been seen: `m` if it is
      set, otherwise the first error-like argument's message, otherwise "". */
  function MessageAfter(m: string, s: seq<Value>): (r: string)
    ensures m != "" ==> r == m
    ensures m == "" && r != "" ==> exists k :: 0 <= k < |s| && IsErrorLike(s[k]) && s[k].message == r
  {
    if m != "" then m else FirstSome(s, ErrorMessage).GetOr("")
  }

  /** A type that starts as `t` after the arguments `s`: `t` if it is set, otherwise
      "error" when some argument is error-like, otherwise "". */
  function TypeAfter(t: string, s: seq<Value>): (r: string)
    ensures t != "" ==> r == t
    ensures t == "" ==> (r == "error" <==> exists k :: 0 <= k < |s| && IsErrorLike(s[k]))
    ensures t == "" && r != "error" ==> r == ""
  {
    if t != "" then t else if AnyErrorLike(s) then "error" else ""
  }

  /** A tag that starts as `g` after the arguments `s`: `g` if it is set, otherwise the
      first error-like argument's code, otherwise "". */
  function TagAfter(g: string, s: seq<Value>): (r: string)
    ensures g != "" ==> r == g
    ensures g == "" && r != "" ==> exists k :: 0 <= k < |s| && IsErrorLike(s[k]) && s[k].code == r
  {
    if g != "" then g else FirstSome(s, ErrorCode).GetOr("")
  }

  /** The message set by the record or, failing that, by an error-like argument. */
  function SuppliedMessage(rec: LogObj): string {
    MessageAfter(rec.message, rec.args)
  }

  /** The tag set by the record or, failing that, by an error-like argument's code. */
  function SuppliedTag(rec: LogObj): string {
    TagAfter(rec.tag, rec.args)
  }

  /** The record's type or, failing that, "error" when some argument is error-like. */
  function SuppliedType(rec: LogObj): string {
    TypeAfter(rec.logType, rec.args)
  }

  /** Whether the first rendered argument is shifted out to serve as the message. */
  predicate Shifts(rec: LogObj) {
    SuppliedMessage(rec) == "" && |rec.args| > 0
  }

  /** The fields `getFields` returns for `rec` when the clock reads `now`. */
  function FieldsOf(h: Hooks, rec: LogObj, now: Date): (r: Fields)
    ensures rec.message != "" ==> r.message == rec.message
    ensures rec.logType != "" ==> r.logType == rec.logType
    ensures rec.tag != "" ==> r.tag == rec.tag
    ensures rec.date.Some? ==> r.date == rec.date.value
    ensures rec.date.None? ==> r.date == now
  {
    var rendered := Rendered(h, rec.args);
    Fields(
      additional := Join(if Shifts(rec) then rendered[1..] else rendered, "\n"),
      date := rec.date.GetOr(now),
      message := if Shifts(rec) then rendered[0] else SuppliedMessage(rec),
      tag := SuppliedTag(rec),
      logType := SuppliedType(rec))
  }

  /** Some argument is null or undefined. */
  predicate AnyNullish(s: seq<Value>) {
    exists k :: 0 <= k < |s| && s[k].Nullish?
  }

  /** `getFields` as a whole: it throws when it reads the `stack` of a null or
      undefined argument, and returns `FieldsOf` otherwise. */
  function Extract(h: Hooks, rec: LogObj, now: Date): (r: Result<Fields, JsError>)
    ensures r.Failure? <==> exists k :: 0 <= k < |rec.args| && rec.args[k].Nullish?
    ensures r.Failure? ==> r.error == CannotReadStack
  {
    if AnyNullish(rec.args) then Failure(CannotReadStack) else Success(FieldsOf(h, rec, now))
  }

  /** Arguments after the first offer are never consulted. */
  lemma {:induction false} FirstSomeAppend(s: seq<Value>, t: seq<Value>, f: Value -> Option<string>)
    ensures FirstSome(s + t, f) == if FirstSome(s, f).Some? then FirstSome(s, f) else FirstSome(t, f)
  {
    if |s| == 0 {
      assert s + t == t;
    } else {
      assert (s + t)[0] == s[0];
      assert (s + t)[1..] == s[1..] + t;
      if f(s[0]).None? {
        FirstSomeAppend(s[1..], t, f);
      }
    }
  }

  /** The offer of argument `i` wins when no earlier argument makes one. */
  lemma {:induction false} FirstSomeAt(s: seq<Value>, f: Value -> Option<string>, i: nat)
    requires i < |s| && f(s[i]).Some?
    requires forall j :: 0 <= j < i ==> f(s[j]).None?
    ensures FirstSome(s, f) == f(s[i])
  {
    if i > 0 {
      FirstSomeAt(s[1..], f, i - 1);
    }
  }

  /** Seeing `s` and then `t` settles the message as seeing `s + t` does. */
  lemma MessageAfterAppend(m: string, s: seq<Value>, t: seq<Value>)
    ensures MessageAfter(MessageAfter(m, s), t) == MessageAfter(m, s + t)
  {
    FirstSomeAppend(s, t, ErrorMessage);
    MessageOfferNonEmpty(s);
  }

  /** Seeing `s` and then `t` settles the type as seeing `s + t` does. */
  lemma TypeAfterAppend(ty: string, s: seq<Value>, t: seq<Value>)
    ensures TypeAfter(TypeAfter(ty, s), t) == TypeAfter(ty, s + t)
  {
    if AnyErrorLike(s) {
      var k :| 0 <= k < |s| && IsErrorLike(s[k]);
      assert (s + t)[k] == s[k];
    }
    if AnyErrorLike(t) {
      var k :| 0 <= k < |t| && IsErrorLike(t[k]);
      assert (s + t)[|s| + k] == t[k];
    }
    if AnyErrorLike(s + t) {
      var k :| 0 <= k < |s + t| && IsErrorLike((s + t)[k]);
      if k < |s| {
        assert s[k] == (s + t)[k];
      } else {
        assert t[k - |s|] == (s + t)[k];
      }
    }
  }

  /** Seeing `s` and then `t` settles the tag as seeing `s + t` does. */
  lemma TagAfterAppend(g: string, s: seq<Value>, t: seq<Value>)
    ensures TagAfter(TagAfter(g, s), t) == TagAfter(g, s + t)
  {
    FirstSomeAppend(s, t, ErrorCode);
    CodeOfferNonEmpty(s);
  }

  /** An error-like argument's message offer is never empty, so an empty message
      means that no offer has been taken yet. */
  lemma MessageOfferNonEmpty(s: seq<Value>)
    ensures FirstSome(s, ErrorMessage).Some? ==> FirstSome(s, ErrorMessage).value != ""
  {
  }

  /** Likewise for codes. */
  lemma CodeOfferNonEmpty(s: seq<Value>)
    ensures FirstSome(s, ErrorCode).Some? ==> FirstSome(s, ErrorCode).value != ""
  {
  }

  /** A non-empty record message is the message, whatever the arguments and their order. */
  lemma MessagePrecedence(h: Hooks, rec: LogObj, now: Date, others: seq<Value>)
    requires rec.message != ""
    ensures FieldsOf(h, rec.(args := others), now).message == rec.message
  {
  }

  /** With no record message, the first error-like argument with a message supplies it. */
  lemma MessageFromFirstError(h: Hooks, rec: LogObj, now: Date, i: nat)
    requires rec.message == "" && i < |rec.args|
    requires IsErrorLike(rec.args[i]) && rec.args[i].message != ""
    requires forall j :: 0 <= j < i ==> !(IsErrorLike(rec.args[j]) && rec.args[j].message != "")
    ensures FieldsOf(h, rec, now).message == rec.args[i].message
  {
    FirstSomeAt(rec.args, ErrorMessage, i);
  }

  /** An empty record type becomes "error" exactly when some argument is error-like. */
  lemma TypeInference(h: Hooks, rec: LogObj, now: Date)
    ensures rec.logType != "" ==> FieldsOf(h, rec, now).logType == rec.logType
    ensures rec.logType == "" ==>
      (FieldsOf(h, rec, now).logType == "error" <==> exists k :: 0 <= k < |rec.args| && rec.args[k].ErrorLike? && rec.args[k].stack != "")
    ensures rec.logType == "" && (forall k :: 0 <= k < |rec.args| ==> !IsErrorLike(rec.args[k])) ==>
      FieldsOf(h, rec, now).logType == ""
  {
  }

  /** With no record tag, the tag is the code of the first error-like argument that has one,
      and "" when none has. */
  lemma TagFromFirstCode(h: Hooks, rec: LogObj, now: Date)
    requires rec.tag == ""
    ensures forall i ::
      (0 <= i < |rec.args| && IsErrorLike(rec.args[i]) && rec.args[i].code != "" &&
       (forall j :: 0 <= j < i ==> !(IsErrorLike(rec.args[j]) && rec.args[j].code != ""))) ==>
        FieldsOf(h, rec, now).tag == rec.args[i].code
    ensures (forall k :: 0 <= k < |rec.args| ==> !(IsErrorLike(rec.args[k]) && rec.args[k].code != "")) ==>
      FieldsOf(h, rec, now).tag == ""
  {
    forall i | 0 <= i < |rec.args| && IsErrorLike(rec.args[i]) && rec.args[i].code != "" &&
      (forall j :: 0 <= j < i ==> !(IsErrorLike(rec.args[j]) && rec.args[j].code != ""))
      ensures FieldsOf(h, rec, now).tag == rec.args[i].code
    {
      FirstSomeAt(rec.args, ErrorCode, i);
    }
    if forall k :: 0 <= k < |rec.args| ==> !(IsErrorLike(rec.args[k]) && rec.args[k].code != "") {
      assert forall k :: 0 <= k < |rec.args| ==> ErrorCode(rec.args[k]).None?;
    }
  }

  /** Appending arguments never changes a type that the record or an earlier
      error-like argument already settled. */
  lemma TypeNeverOverridden(rec: LogObj, more: seq<Value>)
    ensures SuppliedType(rec) != "" ==> SuppliedType(rec.(args := rec.args + more)) == SuppliedType(rec)
  {
    TypeAfterAppend(rec.logType, rec.args, more);
  }

  /** Appending arguments never changes a tag that the record or an earlier
      error-like argument already settled. */
  lemma TagNeverOverridden(rec: LogObj, more: seq<Value>)
    ensures SuppliedTag(rec) != "" ==> SuppliedTag(rec.(args := rec.args + more)) == SuppliedTag(rec)
  {
    TagAfterAppend(rec.tag, rec.args, more);
  }

  /** Appending arguments never changes a message that the record or an earlier
      error-like argument already supplied. */
  lemma MessageNeverOverridden(h: Hooks, rec: LogObj, now: Date, more: seq<Value>)
    ensures SuppliedMessage(rec) != "" ==>
      FieldsOf(h, rec.(args := rec.args + more), now).message == FieldsOf(h, rec, now).message
  {
    MessageAfterAppend(rec.message, rec.args, more);
  }

  /** The message is empty exactly when neither the record, nor an error-like argument,
      nor the rendering of the first argument supplies one. */
  lemma MessageEmptyIff(h: Hooks, rec: LogObj, now: Date)
    ensures FieldsOf(h, rec, now).message == "" <==>
      rec.message == "" &&
      (forall k :: 0 <= k < |rec.args| ==> !(IsErrorLike(rec.args[k]) && rec.args[k].message != "")) &&
      (|rec.args| == 0 || Render(h, rec.args[0]) == "")
  {
    var f := FieldsOf(h, rec, now);
    assert f.message == if Shifts(rec) then Render(h, rec.args[0]) else SuppliedMessage(rec);
    MessageOfferNonEmpty(rec.args);
    assert FirstSome(rec.args, ErrorMessage).None? <==>
      forall k :: 0 <= k < |rec.args| ==> !(IsErrorLike(rec.args[k]) && rec.args[k].message != "");
  }

  /** When nothing supplies a message, the first argument's rendering becomes the message
      and only the rest go to `additional`; otherwise every rendering does, in order. */
  lemma FallbackMessage(h: Hooks, rec: LogObj, now: Date)
    ensures Shifts(rec) ==>
      FieldsOf(h, rec, now).message == Render(h, rec.args[0]) &&
      FieldsOf(h, rec, now).additional == Join(Rendered(h, rec.args[1..]), "\n")
    ensures !Shifts(rec) ==>
      FieldsOf(h, rec, now).message == SuppliedMessage(rec) &&
      FieldsOf(h, rec, now).additional == Join(Rendered(h, rec.args), "\n")
    ensures |rec.args| == 0 ==> FieldsOf(h, rec, now).additional == ""
  {
    if Shifts(rec) {
      assert Rendered(h, rec.args)[1..] == Rendered(h, rec.args[1..]);
    }
  }

  /** When no rendering spans several lines, the lines of `additional` are exactly the
      renderings of the arguments not used as the message, in order, each once. */
  lemma AdditionalLines(h: Hooks, rec: LogObj, now: Date)
    requires forall k :: 0 <= k < |rec.args| ==> '\n' !in Render(h, rec.args[k])
    ensures var rest := if Shifts(rec) then rec.args[1..] else rec.args;
      (rest == [] ==> FieldsOf(h, rec, now).additional == "") &&
      (rest != [] ==> Split(FieldsOf(h, rec, now).additional, '\n') == Rendered(h, rest))
  {
    FallbackMessage(h, rec, now);
    var rest := if Shifts(rec) then rec.args[1..] else rec.args;
    if rest != [] {
      SplitJoin(Rendered(h, rest), '\n');
    }
  }
}
