/** Validation of submitted survey answers against the questions of a form. */
module FeedbackValidation {
  import opened Text

  datatype Json = Undefined | Null | Bool(b: bool) | Num(n: real) | Str(s: string) | Arr(items: seq<Json>) | Obj

  /** The conversions of the language: `String(v)`, `Number(s)` with None for blank or NaN, `Date` parsing
      with None for an invalid date, and `toLowerCase`. */
  datatype Js = Js(text: Json -> string, number: string -> Option<real>, date: string -> Option<int>,
      lower: string -> string)

  datatype Kind =
    | ShortText | LongText | Email | Phone | Number | Date | MultipleChoice | Dropdown | Checkbox | YesNo | Rating
    | FileUpload
    | Unsupported

  datatype Question = Question(id: string, kind: Kind, required: bool, options: seq<string>,
                               min: Option<real>, max: Option<real>, scale: Option<string>, key: string)

  /** An item that is missing or has no question id has the empty id. */
  datatype Item = Item(questionId: string, value: Json)

  datatype Payload =
    | Empty | TextValue(s: string) | NumberValue(n: real) | BooleanValue(b: bool) | DateValue(ms: int)
    | OptionsValue(chosen: seq<string>)

  datatype Answer = Answer(questionId: string, payload: Payload)

  datatype Result =
    | Ok(answers: seq<Answer>, ratings: map<string, real>, overallScore: Option<real>, npsScore: Option<real>)
    | BadItem(at: nat)
    | MissingRequired(questionId: string)

  // ----- One answer -----

  predicate IsEmpty(v: Json) {
    v.Undefined? || v.Null? || v == Str("") || v == Arr([])
  }

  function ToNumber(js: Js, v: Json): Option<real> {
    match v
    case Num(n) => Some(n)
    case Str(s) => js.number(s)
    case _ => None
  }

  predicate NotSpace(c: char) { !IsSpace(c) }

  predicate EmailChar(c: char) { NotSpace(c) && c != '@' }

  predicate AllEmailChars(s: string) { forall i :: 0 <= i < |s| ==> EmailChar(s[i]) }

  /** `/^[^\s@]+@[^\s@]+\.[^\s@]+$/`: one @ with something before it, and a dot inside what follows. */
  predicate IsEmail(s: string) {
    var n := RunLength(s, EmailChar);
    0 < n < |s| && s[n] == '@' && IsDomain(s[n + 1..])
  }

  predicate IsDomain(s: string) {
    AllEmailChars(s) && exists i :: 0 < i < |s| - 1 && s[i] == '.'
  }

  /** A number, or a text that is one. */
  predicate Numeric(js: Js, v: Json) { v.Num? || (v.Str? && js.number(v.s).Some?) }

  function NumberOf(js: Js, v: Json): real
    requires Numeric(js, v)
  {
    if v.Num? then v.n else js.number(v.s).value
  }

  predicate IsYes(s: string) { s == "yes" || s == "true" || s == "y" }

  predicate IsNo(s: string) { s == "no" || s == "false" || s == "n" }

  function AllText(js: Js, items: seq<Json>): (r: seq<string>)
    ensures |r| == |items| && forall i :: 0 <= i < |r| ==> r[i] == js.text(items[i])
  {
    seq(|items|, i requires 0 <= i < |items| => js.text(items[i]))
  }

  /** The question is the last one of the form with the id. */
  ghost predicate IsQuestion(questions: seq<Question>, id: string, q: Question) {
    exists i :: 0 <= i < |questions| && questions[i] == q && q.id == id
                && forall k :: i < k < |questions| ==> questions[k].id != id
  }

  lemma {:induction false} FindsQuestion(questions: seq<Question>, id: string, q: Question)
    ensures Find(questions, id) == Some(q) <==> IsQuestion(questions, id, q)
  {
    if questions != [] {
      var front, last := questions[..|questions|-1], questions[|questions|-1];
      FindsQuestion(front, id, q);
      assert questions == front + [last];
      if last.id != id && IsQuestion(front, id, q) {
        var i :| 0 <= i < |front| && front[i] == q && q.id == id && forall k :: i < k < |front| ==> front[k].id != id;
        assert questions[i] == q;
      }
    }
  }

  /** An answer left out: no value, an empty text or an empty list. */
  ghost predicate LeftOut(v: Json) { v == Undefined || v == Null || v == Str("") || v == Arr([]) }

  /** What the question kind asks of a non-empty value. */
  predicate Fits(js: Js, q: Question, v: Json) {
    match q.kind
    case ShortText => true
    case LongText => true
    case Phone => true
    case FileUpload => true
    case Email => IsEmail(js.text(v))
    case Number =>
      && Numeric(js, v) && (q.min.Some? ==> q.min.value <= NumberOf(js, v))
      && (q.max.Some? ==> NumberOf(js, v) <= q.max.value)
    case Date => js.date(js.text(v)).Some?
    case MultipleChoice => q.options == [] || js.text(v) in q.options
    case Dropdown => q.options == [] || js.text(v) in q.options
    case Checkbox => v.Arr? && (q.options == [] || forall x <- v.items :: js.text(x) in q.options)
    case YesNo => v.Bool? || js.lower(js.text(v)) in {"yes", "true", "y", "no", "false", "n"}
    case Rating =>
      && Numeric(js, v) && NumberOf(js, v).Floor as real == NumberOf(js, v)
      && if q.scale != Some("1-10") then 1.0 <= NumberOf(js, v) <= 5.0
         else (if q.key == "recommend" then 0.0 else 1.0) <= NumberOf(js, v) <= 10.0
    case Unsupported => false
  }

  /** How a fitting value is stored. */
  function Stored(js: Js, q: Question, v: Json): Payload
    requires Fits(js, q, v)
  {
    match q.kind
    case Number => NumberValue(NumberOf(js, v))
    case Rating => NumberValue(NumberOf(js, v))
    case Date => DateValue(js.date(js.text(v)).value)
    case Checkbox => OptionsValue(AllText(js, v.items))
    case YesNo => BooleanValue(if v.Bool? then v.b else js.lower(js.text(v)) in {"yes", "true", "y"})
    case _ => TextValue(js.text(v))
  }

  // ----- A whole submission -----

  /** The question an id stands for: the last one of the form that has it. */
  function Find(questions: seq<Question>, id: string): (q: Option<Question>)
    ensures q.Some? ==> q.value in questions && q.value.id == id
    ensures q.None? ==> forall p <- questions :: p.id != id
  {
    if questions == [] then None
    else
      var last := questions[|questions|-1];
      if last.id == id then Some(last) else Find(questions[..|questions|-1], id)
  }

  /** The item answers a question of the form, and does so acceptably; an empty value is acceptable
      where no answer is required. */
  ghost predicate ItemOk(js: Js, questions: seq<Question>, item: Item) {
    item.questionId != "" &&
    var q := Find(questions, item.questionId);
    q.Some? && if LeftOut(item.value) then !q.value.required else Fits(js, q.value, item.value)
  }

  ghost function PayloadOf(js: Js, questions: seq<Question>, item: Item): Payload
    requires ItemOk(js, questions, item)
  {
    if LeftOut(item.value) then Empty else Stored(js, Find(questions, item.questionId).value, item.value)
  }

  ghost predicate DistinctIds(items: seq<Item>) {
    forall i, j :: 0 <= i < j < |items| ==> items[i].questionId != items[j].questionId
  }

  ghost predicate Answered(items: seq<Item>, id: string) { exists i :: 0 <= i < |items| && items[i].questionId == id }

  /** Exactly when a submission is accepted. */
  ghost predicate Acceptable(js: Js, questions: seq<Question>, items: seq<Item>) {
    && (forall i :: 0 <= i < |items| ==> ItemOk(js, questions, items[i]))
    && DistinctIds(items)
    && forall q <- questions :: q.required ==> Answered(items, q.id)
  }

  /** The metric an item contributes, if it is a rating of a question with a key. */
  ghost function Metric(js: Js, questions: seq<Question>, item: Item): Option<(string, real)> {
    var q := Find(questions, item.questionId);
    if q.Some? && !LeftOut(item.value) && q.value.kind == Rating && q.value.key != "" && Numeric(js, item.value)
    then Some((q.value.key, NumberOf(js, item.value))) else None
  }

  /** The metrics of the items, a later one overriding an earlier one with the same key. */
  ghost function Metrics(js: Js, questions: seq<Question>, items: seq<Item>): map<string, real> {
    if items == [] then map[]
    else
      var earlier := Metrics(js, questions, items[..|items|-1]);
      var m := Metric(js, questions, items[|items|-1]);
      if m.Some? then earlier[m.value.0 := m.value.1] else earlier
  }

  function Score(ratings: map<string, real>, key: string): Option<real> {
    if key in ratings then Some(ratings[key]) else None
  }

  /** One round of the validation loop: what is stored for an item, or None where the source throws. */
  method ValidateItem(js: Js, questions: seq<Question>, item: Item) returns (payload: Option<Payload>)
    ensures payload.Some? <==> ItemOk(js, questions, item)
    ensures payload.Some? ==> payload.value == PayloadOf(js, questions, item)
  {
    if item.questionId == "" { return None; }
    var question := Find(questions, item.questionId);
    if question.None? { return None; }
    var q, value := question.value, item.value;
    if IsEmpty(value) {
      if q.required { return None; }
      return Some(Empty);
    }
    match q.kind {
      case ShortText => payload := Some(TextValue(js.text(value)));
      case LongText => payload := Some(TextValue(js.text(value)));
      case Phone => payload := Some(TextValue(js.text(value)));
      case FileUpload => payload := Some(TextValue(js.text(value)));
      case Email =>
        if !IsEmail(js.text(value)) { return None; }
        payload := Some(TextValue(js.text(value)));
      case Number =>
        var num := ToNumber(js, value);
        if num.None? { return None; }
        if q.min.Some? && num.value < q.min.value { return None; }
        if q.max.Some? && num.value > q.max.value { return None; }
        payload := Some(NumberValue(num.value));
      case Date =>
        var date := js.date(js.text(value));
        if date.None? { return None; }
        payload := Some(DateValue(date.value));
      case MultipleChoice =>
        if |q.options| > 0 && js.text(value) !in q.options { return None; }
        payload := Some(TextValue(js.text(value)));
      case Dropdown =>
        if |q.options| > 0 && js.text(value) !in q.options { return None; }
        payload := Some(TextValue(js.text(value)));
      case Checkbox =>
        if !value.Arr? { return None; }
        var allowed := AllAllowed(js, q.options, value.items);
        if |q.options| > 0 && !allowed { return None; }
        payload := Some(OptionsValue(AllText(js, value.items)));
      case YesNo =>
        if value.Bool? { return Some(BooleanValue(value.b)); }
        var str := js.lower(js.text(value));
        if !IsYes(str) && !IsNo(str) { return None; }
        payload := Some(BooleanValue(IsYes(str)));
      case Rating =>
        var num := ToNumber(js, value);
        if num.None? || num.value.Floor as real != num.value { return None; }
        var min, max := 1, 5;
        if q.scale == Some("1-10") {
          min := if q.key == "recommend" then 0 else 1;
          max := 10;
        }
        if num.value < min as real || num.value > max as real { return None; }
        payload := Some(NumberValue(num.value));
      case Unsupported => payload := None;
    }
  }

  method AllAllowed(js: Js, options: seq<string>, items: seq<Json>) returns (ok: bool)
    ensures ok <==> forall x <- items :: js.text(x) in options
  {
    ok := true;
    for i := 0 to |items|
      invariant ok <==> forall k :: 0 <= k < i ==> js.text(items[k]) in options
    {
      if js.text(items[i]) !in options { ok := false; }
    }
  }

  /** One stored answer per item, in order, and every item acceptable. */
  ghost predicate Serializes(js: Js, questions: seq<Question>, items: seq<Item>, answers: seq<Answer>) {
    |answers| == |items| &&
    forall i :: 0 <= i < |items| ==>
                  ItemOk(js, questions, items[i])
                      && answers[i] == Answer(items[i].questionId, PayloadOf(js, questions, items[i]))
  }

  /** The item at `i` is the first that is bad or repeats an earlier id. */
  ghost predicate FirstBad(js: Js, questions: seq<Question>, items: seq<Item>, i: nat) {
    && i < |items|
    && (forall k :: 0 <= k < i ==> ItemOk(js, questions, items[k])) && DistinctIds(items[..i])
    && (!ItemOk(js, questions, items[i]) || Answered(items[..i], items[i].questionId))
  }

  /** `validateAndSerializeAnswers`: accepted exactly when acceptable, with one stored answer per item in
      order; a rejected submission names the first item that is bad or repeats an earlier id. */
  method Validate(js: Js, questions: seq<Question>, items: seq<Item>) returns (r: Result)
    ensures r.Ok? <==> Acceptable(js, questions, items)
    ensures r.Ok? ==>
              && Serializes(js, questions, items, r.answers)
              && r.ratings == Metrics(js, questions, items)
              && r.overallScore == Score(r.ratings, "overall") && r.npsScore == Score(r.ratings, "recommend")
    ensures r.BadItem? ==> FirstBad(js, questions, items, r.at)
    ensures r.MissingRequired? ==>
              && (forall i :: 0 <= i < |items| ==> ItemOk(js, questions, items[i])) && DistinctIds(items)
              && !Answered(items, r.questionId) && exists q <- questions :: q.required && q.id == r.questionId
  {
    hide ItemOk, Metrics, Metric, PayloadOf, Serializes, FirstBad, DistinctIds, Answered, Acceptable, Score;
    var seen: set<string> := {};
    var serialized: seq<Answer> := [];
    var ratings: map<string, real> := map[];
    Start(js, questions, items);
    for i := 0 to |items|
      invariant forall id :: id in seen <==> Answered(items[..i], id)
      invariant Serializes(js, questions, items[..i], serialized) && DistinctIds(items[..i])
      invariant ratings == Metrics(js, questions, items[..i])
    {
      var item := items[i];
      SeenAfter(items, i);
      if item.questionId in seen {
        Stopped(js, questions, items, i, serialized);
        return BadItem(i);
      }
      seen := seen + {item.questionId};
      var payload := ValidateItem(js, questions, item);
      if payload.None? {
        Stopped(js, questions, items, i, serialized);
        return BadItem(i);
      }
      Continued(js, questions, items, i, serialized);
      serialized := serialized + [Answer(item.questionId, payload.value)];
      KnownQuestion(js, questions, item);
      var question := Find(questions, item.questionId).value;
      MetricOfItem(js, questions, item);
      if question.kind == Rating && payload.value.NumberValue? && question.key != "" {
        ratings := ratings[question.key := payload.value.n];
      }
    }
    assert items[..|items|] == items;
    for i := 0 to |questions|
      invariant forall k :: 0 <= k < i ==> questions[k].required ==> questions[k].id in seen
    {
      if questions[i].required && questions[i].id !in seen {
        assert questions[i] in questions;
        NotAcceptable(js, questions, items, serialized, questions[i]);
        return MissingRequired(questions[i].id);
      }
    }
    AllWell(js, questions, items, serialized);
    r := Ok(serialized, ratings, Score(ratings, "overall"), Score(ratings, "recommend"));
  }

  lemma Start(js: Js, questions: seq<Question>, items: seq<Item>)
    ensures forall id :: !Answered(items[..0], id)
    ensures Serializes(js, questions, items[..0], []) && DistinctIds(items[..0])
            && Metrics(js, questions, items[..0]) == map[]
  {
  }

  /** An item that is bad or repeats an id rejects the whole submission. */
  lemma Stopped(js: Js, questions: seq<Question>, items: seq<Item>, i: nat, answers: seq<Answer>)
    requires i < |items| && Serializes(js, questions, items[..i], answers) && DistinctIds(items[..i])
    requires !ItemOk(js, questions, items[i]) || Answered(items[..i], items[i].questionId)
    ensures FirstBad(js, questions, items, i) && !Acceptable(js, questions, items)
  {
    hide ItemOk, PayloadOf, Metrics;
    forall k | 0 <= k < i ensures ItemOk(js, questions, items[k]) { assert items[..i][k] == items[k]; }
  }

  /** A good item with a new id extends what has been read so far. */
  lemma Continued(js: Js, questions: seq<Question>, items: seq<Item>, i: nat, answers: seq<Answer>)
    requires i < |items| && Serializes(js, questions, items[..i], answers) && DistinctIds(items[..i])
    requires ItemOk(js, questions, items[i]) && !Answered(items[..i], items[i].questionId)
    ensures Serializes(js, questions, items[..i + 1],
            answers + [Answer(items[i].questionId, PayloadOf(js, questions, items[i]))])
    ensures DistinctIds(items[..i + 1])
    ensures var m := Metric(js, questions, items[i]);
            Metrics(js, questions, items[..i + 1]) ==
            if m.Some? then Metrics(js, questions, items[..i])[m.value.0 := m.value.1]
            else Metrics(js, questions, items[..i])
  {
    hide ItemOk, PayloadOf, Metric;
    assert items[..i + 1] == items[..i] + [items[i]];
    assert items[..i + 1][..|items[..i + 1]| - 1] == items[..i];
  }

  lemma KnownQuestion(js: Js, questions: seq<Question>, item: Item)
    requires ItemOk(js, questions, item)
    ensures Find(questions, item.questionId).Some?
  {
  }

  lemma NotAcceptable(js: Js, questions: seq<Question>, items: seq<Item>, answers: seq<Answer>, q: Question)
    requires Serializes(js, questions, items, answers) && q in questions && q.required && !Answered(items, q.id)
    ensures !Acceptable(js, questions, items) && forall i :: 0 <= i < |items| ==> ItemOk(js, questions, items[i])
  {
  }

  lemma AllWell(js: Js, questions: seq<Question>, items: seq<Item>, answers: seq<Answer>)
    requires Serializes(js, questions, items, answers) && DistinctIds(items)
    requires forall k :: 0 <= k < |questions| ==> questions[k].required ==> Answered(items, questions[k].id)
    ensures Acceptable(js, questions, items)
  {
    hide ItemOk, PayloadOf, Answered;
  }

  lemma SeenAfter(items: seq<Item>, i: nat)
    requires i < |items|
    ensures forall id :: Answered(items[..i + 1], id) <==> Answered(items[..i], id) || id == items[i].questionId
  {
    forall id
      ensures Answered(items[..i + 1], id) <==> Answered(items[..i], id) || id == items[i].questionId
    {
      if id == items[i].questionId { assert items[..i + 1][i] == items[i]; }
      if Answered(items[..i], id) {
        var k :| 0 <= k < i && items[..i][k].questionId == id;
        assert items[..i + 1][k].questionId == id;
      }
    }
  }

  lemma MetricOfItem(js: Js, questions: seq<Question>, item: Item)
    requires ItemOk(js, questions, item)
    ensures var q, p := Find(questions, item.questionId).value, PayloadOf(js, questions, item);
            Metric(js, questions, item) ==
            if q.kind == Rating && p.NumberValue? && q.key != "" then Some((q.key, p.n)) else None
  {
  }

  // ----- What acceptance guarantees -----

  /** Every required question of an accepted submission has a non-empty answer. */
  lemma RequiredMeansNonEmpty(js: Js, questions: seq<Question>, items: seq<Item>, q: Question)
    requires Acceptable(js, questions, items) && q in questions && q.required && Find(questions, q.id) == Some(q)
    ensures exists i :: 0 <= i < |items| && items[i].questionId == q.id && !LeftOut(items[i].value)
  {
    assert Answered(items, q.id);
    var i :| 0 <= i < |items| && items[i].questionId == q.id;
    assert ItemOk(js, questions, items[i]);
  }

  /** Every rating stored lies in the scale of the question it came from and is whole. */
  lemma {:induction false} RatingsInScale(js: Js, questions: seq<Question>, items: seq<Item>, key: string)
    requires forall i :: 0 <= i < |items| ==> ItemOk(js, questions, items[i])
    requires key in Metrics(js, questions, items)
    ensures key != "" && exists q <- questions ::
              && q.kind == Rating && q.key == key
              && (if q.scale != Some("1-10") then 1.0 <= Metrics(js, questions, items)[key] <= 5.0
                  else (if key == "recommend" then 0.0 else 1.0) <= Metrics(js, questions, items)[key] <= 10.0)
              && Metrics(js, questions, items)[key].Floor as real == Metrics(js, questions, items)[key]
  {
    var front, last := items[..|items|-1], items[|items|-1];
    var m := Metric(js, questions, last);
    if m.Some? && m.value.0 == key {
      assert ItemOk(js, questions, last);
      assert Find(questions, last.questionId).value in questions;
    } else {
      RatingsInScale(js, questions, front, key);
    }
  }

  // ----- The order of the answers does not matter -----

  ghost predicate Reordered(a: seq<Item>, b: seq<Item>) { multiset(a) == multiset(b) }

  lemma ReorderedMembers(a: seq<Item>, b: seq<Item>)
    requires Reordered(a, b)
    ensures forall x :: x in a <==> x in b
  {
    forall x
      ensures x in a <==> x in b
    {
      assert x in a <==> x in multiset(a);
      assert x in b <==> x in multiset(b);
    }
  }

  lemma {:induction false} OnceInSequence(a: seq<Item>, x: Item)
    requires DistinctIds(a)
    ensures multiset(a)[x] <= 1
  {
    if a != [] {
      var front, last := a[..|a|-1], a[|a|-1];
      OnceInSequence(front, x);
      assert a == front + [last];
      if x == last { assert x !in front; }
    }
  }

  lemma ReorderedIdsDistinct(a: seq<Item>, b: seq<Item>)
    requires Reordered(a, b) && DistinctIds(a)
    ensures DistinctIds(b)
  {
    ReorderedMembers(a, b);
    forall i, j | 0 <= i < j < |b|
      ensures b[i].questionId != b[j].questionId
    {
      if b[i].questionId == b[j].questionId {
        assert b[i] in a && b[j] in a;
        var k :| 0 <= k < |a| && a[k] == b[i];
        var l :| 0 <= l < |a| && a[l] == b[j];
        assert k == l;
        TwiceInSequence(b, i, j);
        OnceInSequence(a, b[i]);
      }
    }
  }

  lemma ReorderedAnswered(a: seq<Item>, b: seq<Item>, id: string)
    requires Reordered(a, b) && Answered(a, id)
    ensures Answered(b, id)
  {
    ReorderedMembers(a, b);
    var i :| 0 <= i < |a| && a[i].questionId == id;
    assert a[i] in b;
    var j :| 0 <= j < |b| && b[j] == a[i];
  }

  lemma ReorderedAcceptable(js: Js, questions: seq<Question>, a: seq<Item>, b: seq<Item>)
    requires Reordered(a, b) && Acceptable(js, questions, a)
    ensures Acceptable(js, questions, b)
  {
    ReorderedMembers(a, b);
    ReorderedIdsDistinct(a, b);
    forall i | 0 <= i < |b|
      ensures ItemOk(js, questions, b[i])
    {
      assert b[i] in a;
      var k :| 0 <= k < |a| && a[k] == b[i];
    }
    forall q <- questions | q.required
      ensures Answered(b, q.id)
    {
      ReorderedAnswered(a, b, q.id);
    }
  }

  /** Rating questions have different keys. */
  ghost predicate DistinctKeys(questions: seq<Question>) {
    forall p, q :: p in questions && q in questions && p.kind == Rating == q.kind && p.key == q.key != "" ==>
                     p.id == q.id
  }

  ghost predicate Contributes(js: Js, questions: seq<Question>, item: Item, key: string, v: real) {
    Metric(js, questions, item) == Some((key, v))
  }

  /** With distinct keys and ids no metric is ever overridden: the map holds exactly what the items contribute. */
  lemma {:induction false} MetricsAreThoseOfItems(js: Js, questions: seq<Question>, items: seq<Item>, key: string,
                                                  v: real)
    requires DistinctIds(items) && DistinctKeys(questions)
    ensures key in Metrics(js, questions, items) && Metrics(js, questions, items)[key] == v
       <==> exists x <- items :: Contributes(js, questions, x, key, v)
  {
    if items != [] {
      var front, last := items[..|items|-1], items[|items|-1];
      MetricsAreThoseOfItems(js, questions, front, key, v);
      assert items == front + [last];
      var m := Metric(js, questions, last);
      if m.Some? && m.value.0 == key {
        assert Contributes(js, questions, last, key, m.value.1);
        forall x <- front
          ensures !Contributes(js, questions, x, key, v)
        {
          OneItemPerKey(js, questions, items, x, key, v);
        }
      } else {
        assert !Contributes(js, questions, last, key, v);
      }
    }
  }

  lemma OneItemPerKey(js: Js, questions: seq<Question>, items: seq<Item>, x: Item, key: string, v: real)
    requires DistinctIds(items) && DistinctKeys(questions) && items != [] && x in items[..|items|-1]
    requires var m := Metric(js, questions, items[|items|-1]); m.Some? && m.value.0 == key
    ensures !Contributes(js, questions, x, key, v)
  {
    hide Metrics;
    var i :| 0 <= i < |items| - 1 && items[i] == x;
    assert x.questionId != items[|items|-1].questionId;
  }

  lemma MetricsWithin(js: Js, questions: seq<Question>, a: seq<Item>, b: seq<Item>, key: string)
    requires DistinctIds(a) && DistinctIds(b) && DistinctKeys(questions) && forall x :: x in a ==> x in b
    requires key in Metrics(js, questions, a)
    ensures key in Metrics(js, questions, b) && Metrics(js, questions, b)[key] == Metrics(js, questions, a)[key]
  {
    hide Metrics, DistinctIds, DistinctKeys, Contributes;
    var v := Metrics(js, questions, a)[key];
    MetricsAreThoseOfItems(js, questions, a, key, v);
    MetricsAreThoseOfItems(js, questions, b, key, v);
  }

  lemma ReorderedMetrics(js: Js, questions: seq<Question>, a: seq<Item>, b: seq<Item>)
    requires Reordered(a, b) && DistinctIds(a) && DistinctKeys(questions)
    ensures Metrics(js, questions, a) == Metrics(js, questions, b)
  {
    hide Metrics;
    ReorderedIdsDistinct(a, b);
    ReorderedMembers(a, b);
    var ma, mb := Metrics(js, questions, a), Metrics(js, questions, b);
    forall key
      ensures key in ma <==> key in mb
      ensures key in ma && key in mb ==> ma[key] == mb[key]
    {
      if key in ma { MetricsWithin(js, questions, a, b, key); }
      if key in mb { MetricsWithin(js, questions, b, a, key); }
    }
  }

  /** Sending the same answers in another order changes neither acceptance nor, with distinct keys, the ratings. */
  lemma OrderDoesNotMatter(js: Js, questions: seq<Question>, a: seq<Item>, b: seq<Item>)
    requires Reordered(a, b)
    ensures Acceptable(js, questions, a) <==> Acceptable(js, questions, b)
    ensures Acceptable(js, questions, a) && DistinctKeys(questions) ==>
            Metrics(js, questions, a) == Metrics(js, questions, b)
  {
    if Acceptable(js, questions, a) { ReorderedAcceptable(js, questions, a, b); }
    if Acceptable(js, questions, b) { ReorderedAcceptable(js, questions, b, a); }
    if Acceptable(js, questions, a) && DistinctKeys(questions) { ReorderedMetrics(js, questions, a, b); }
  }

  // ----- E-mail addresses -----

  /** `s` is a local part, an at sign, a domain, a dot and a top-level part. */
  ghost predicate SplitsAs(s: string, a: string, b: string, c: string) {
    && s == a + ("@" + (b + ("." + c))) && a != "" && b != "" && c != ""
    && forall x :: x in a || x in b || x in c ==> !IsSpace(x) && x != '@'
  }

  /** The test is the regular expression: some such split exists. */
  lemma EmailIsRegex(s: string)
    ensures IsEmail(s) <==> exists a, b, c :: SplitsAs(s, a, b, c)
  {
    hide SplitsAs;
    if IsEmail(s) {
      var d := s[RunLength(s, EmailChar) + 1..];
      var i :| 0 < i < |d| - 1 && d[i] == '.';
      EmailSplits(s, i);
    }
    if exists a, b, c :: SplitsAs(s, a, b, c) {
      var a, b, c :| SplitsAs(s, a, b, c);
      SplitIsEmail(s, a, b, c);
    }
  }

  lemma EmailSplits(s: string, i: nat)
    requires IsEmail(s)
    requires var d := s[RunLength(s, EmailChar) + 1..]; 0 < i < |d| - 1 && d[i] == '.'
    ensures var n := RunLength(s, EmailChar); SplitsAs(s, s[..n], s[n + 1..][..i], s[n + 1..][i + 1..])
  {
    hide RunLength;
    var n := RunLength(s, EmailChar);
    var d := s[n + 1..];
    assert s == s[..n] + ("@" + d);
    assert d == d[..i] + ("." + d[i + 1..]);
    forall k | 0 <= k < n ensures EmailChar(s[..n][k]) { assert s[..n][k] in s[..n]; }
  }

  lemma SplitIsEmail(s: string, a: string, b: string, c: string)
    requires SplitsAs(s, a, b, c)
    ensures IsEmail(s)
  {
    hide RunLength;
    var d := b + ("." + c);
    LocalPart(a, "@" + d);
    assert s[|a| + 1..] == d;
    assert d[|b|] == '.';
    forall k | 0 <= k < |d| ensures EmailChar(d[k]) {
      if k < |b| { assert d[k] == b[k]; } else if k > |b| { assert d[k] == c[k - |b| - 1]; }
    }
  }

  lemma {:induction false} LocalPart(a: string, rest: string)
    requires AllEmailChars(a) && rest != [] && rest[0] == '@'
    ensures RunLength(a + rest, EmailChar) == |a|
  {
    if a == [] {
      assert a + rest == rest;
    } else {
      assert (a + rest)[1..] == a[1..] + rest;
      LocalPart(a[1..], rest);
    }
  }
}
