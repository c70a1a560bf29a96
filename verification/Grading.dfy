/** services/grading_service.py, the graders: a validated payload and an arbitrary JSON response give a score, in exact
    arithmetic. A question's type column and its payload are stored separately and nothing ties them together. */
module Grading {
  import opened Common
  import opened TextWords

  datatype Json =
    | Null
    | Bool(value: bool)
    | Int(n: int)
    | Float(x: real)
    | Str(s: string)
    | List(items: seq<Json>)
    | Object(fields: map<string, Json>)

  type Response = map<string, Json>

  datatype Kind = SingleKind | MultipleKind | TrueFalseKind | ShortKind | EssayKind | MatchingKind | OrderingKind | BlankKind

  datatype Payload =
    | Single(options: nat, correctIndex: int)
    | Multiple(options: nat, correctIndices: seq<int>)
    | TrueFalse(correct: bool)
    | Short
    | Essay
    | Matching(left: nat, right: nat, correctPairs: seq<(int, int)>)
    | Ordering(count: nat, correctOrder: seq<int>)
    | Blanks(blanks: seq<seq<string>>, caseInsensitive: bool)

  /** Python's conversions that depend on Unicode or on float printing: str(), str.lower(), str.isspace(), int(str). */
  datatype Python = Python(str: Json -> string, lower: string -> string, space: char -> bool, parse: string -> Option<int>)

  datatype Grade = Grade(awarded: real, max: real, correct: Option<bool>, review: bool)

  predicate IsOpen(kind: Kind) {
    kind == ShortKind || kind == EssayKind
  }

  function KindOf(payload: Payload): Kind {
    match payload
    case Single(_, _) => SingleKind
    case Multiple(_, _) => MultipleKind
    case TrueFalse(_) => TrueFalseKind
    case Short => ShortKind
    case Essay => EssayKind
    case Matching(_, _, _) => MatchingKind
    case Ordering(_, _) => OrderingKind
    case Blanks(_, _) => BlankKind
  }

  /** The validators of the teacher-facing payload schemas. */
  ghost predicate Valid(payload: Payload) {
    match payload
    case Single(options, index) => options >= 2 && 0 <= index < options
    case Multiple(options, indices) =>
      options >= 2 && |indices| >= 1 && NoDup(indices) && forall i :: 0 <= i < |indices| ==> 0 <= indices[i] < options
    case Matching(left, right, pairs) =>
      && left >= 2 && right >= 2 && |pairs| >= 1
      && (forall i :: 0 <= i < |pairs| ==> 0 <= pairs[i].0 < left && 0 <= pairs[i].1 < right)
      && (forall i, j :: 0 <= i < j < |pairs| ==> pairs[i].0 != pairs[j].0)
    case Ordering(count, order) =>
      |order| == count >= 2 && NoDup(order) && forall i :: 0 <= i < count ==> 0 <= order[i] < count
    case Blanks(blanks, _) => |blanks| >= 1 && forall i :: 0 <= i < |blanks| ==> |blanks[i]| >= 1
    case _ => true
  }

  // ----- payload.get(...) on a payload that may be of another type -----

  function CorrectIndices(payload: Payload): seq<int> {
    if payload.Multiple? then payload.correctIndices else []
  }

  function CorrectPairs(payload: Payload): seq<(int, int)> {
    if payload.Matching? then payload.correctPairs else []
  }

  function CorrectOrder(payload: Payload): seq<int> {
    if payload.Ordering? then payload.correctOrder else []
  }

  function BlankLists(payload: Payload): seq<seq<string>> {
    if payload.Blanks? then payload.blanks else []
  }

  // ----- Python's view of a JSON value -----

  /** isinstance(v, int): booleans are integers. */
  function AsInt(v: Json): Option<int> {
    match v
    case Bool(b) => Some(if b then 1 else 0)
    case Int(n) => Some(n)
    case _ => None
  }

  /** v == n for an integer n: numbers compare by value. */
  predicate EqualsInt(v: Json, n: int) {
    match v
    case Float(x) => x == n as real
    case _ => AsInt(v) == Some(n)
  }

  /** int(v): floats are cut toward zero. */
  function ToInt(py: Python, v: Json): Option<int> {
    match v
    case Float(x) => Some(if x >= 0.0 then x.Floor else -(-x).Floor)
    case Str(s) => py.parse(s)
    case _ => AsInt(v)
  }

  /** `response.get(key) or []`, then [] unless it is a list. */
  function ListAt(response: Response, key: string): seq<Json> {
    if key in response && response[key].List? then response[key].items else []
  }

  /** A value under `key` that is neither falsy nor a list. */
  predicate NotAList(response: Response, key: string) {
    && key in response
    && match response[key]
       case Null => false
       case Bool(b) => b
       case Int(n) => n != 0
       case Float(x) => x != 0.0
       case Str(s) => s != ""
       case List(_) => false
       case Object(fields) => fields != map[]
  }

  // ----- the graders that are expressions -----

  function Verdict(correct: bool): Grade {
    Grade(if correct then 1.0 else 0.0, 1.0, Some(correct), false)
  }

  const Zero := Grade(0.0, 1.0, Some(false), false)

  function GradeSingle(payload: Payload, response: Response): Grade {
    var selected := if "selected_index" in response then AsInt(response["selected_index"]) else None;
    Verdict(selected.Some? && payload.Single? && selected.value == payload.correctIndex)
  }

  function Selected(response: Response): set<int> {
    var raw := ListAt(response, "selected_indices");
    set i | 0 <= i < |raw| && AsInt(raw[i]).Some? :: AsInt(raw[i]).value
  }

  function GradeMultiple(payload: Payload, response: Response): Grade {
    var selected, correct := Selected(response), Elements(CorrectIndices(payload));
    if correct == {} || selected == {} then Zero
    else
      UnionIsLarger(selected, correct);
      Grade(|selected * correct| as real / |selected + correct| as real, 1.0, Some(selected == correct), false)
  }

  function GradeTrueFalse(payload: Payload, response: Response): Grade {
    Verdict("selected" in response && response["selected"] == Bool(payload.TrueFalse? && payload.correct))
  }

  function Agreeing(submitted: seq<Json>, correct: seq<int>): (n: nat)
    requires |submitted| == |correct|
    ensures n <= |correct|
  {
    if correct == [] then 0
    else
      var last := |correct| - 1;
      Agreeing(submitted[..last], correct[..last]) + (if EqualsInt(submitted[last], correct[last]) then 1 else 0)
  }

  function GradeOrdering(payload: Payload, response: Response): Grade {
    var correct, submitted := CorrectOrder(payload), ListAt(response, "order");
    if NotAList(response, "order") || |submitted| != |correct| then Zero
    else
      var matches := Agreeing(submitted, correct);
      Grade(if correct == [] then 0.0 else matches as real / |correct| as real, 1.0, Some(matches == |correct|), false)
  }

  // ----- the graders that are loops -----

  function PairOf(py: Python, item: Json): Option<(int, int)> {
    if item.List? && |item.items| == 2 && ToInt(py, item.items[0]).Some? && ToInt(py, item.items[1]).Some?
    then Some((ToInt(py, item.items[0]).value, ToInt(py, item.items[1]).value))
    else None
  }

  function PairsIn(py: Python, raw: seq<Json>): set<(int, int)> {
    set i | 0 <= i < |raw| && PairOf(py, raw[i]).Some? :: PairOf(py, raw[i]).value
  }

  function MatchingGrade(py: Python, payload: Payload, response: Response): Grade {
    var correct, submitted := Elements(CorrectPairs(payload)), PairsIn(py, ListAt(response, "pairs"));
    if correct == {} then Zero
    else Grade(|submitted * correct| as real / |correct| as real, 1.0, Some(submitted == correct), false)
  }

  method ReadPair(py: Python, item: Json) returns (pair: Option<(int, int)>)
    ensures pair == PairOf(py, item)
  {
    if !item.List? || |item.items| != 2 {
      return None;
    }
    var li := ToInt(py, item.items[0]);
    if li.None? {
      return None;
    }
    var ri := ToInt(py, item.items[1]);
    return if ri.Some? then Some((li.value, ri.value)) else None;
  }

  method CollectPairs(py: Python, raw: seq<Json>) returns (submitted: set<(int, int)>)
    ensures submitted == PairsIn(py, raw)
  {
    submitted := {};
    for i := 0 to |raw|
      invariant submitted == PairsIn(py, raw[..i])
    {
      PairsGrow(py, raw, i);
      var pair := ReadPair(py, raw[i]);
      if pair.Some? {
        submitted := submitted + {pair.value};
      }
    }
    assert raw[..|raw|] == raw;
  }

  method GradeMatching(py: Python, payload: Payload, response: Response) returns (grade: Grade)
    ensures grade == MatchingGrade(py, payload, response)
  {
    var correct := Elements(CorrectPairs(payload));
    var submitted := CollectPairs(py, ListAt(response, "pairs"));
    if correct == {} {
      return Zero;
    }
    var score := |submitted * correct| as real / |correct| as real;
    return Grade(if score < 0.0 then 0.0 else score, 1.0, Some(submitted == correct), false);
  }

  lemma PairsGrow(py: Python, raw: seq<Json>, i: nat)
    requires i < |raw|
    ensures PairsIn(py, raw[..i + 1]) == PairsIn(py, raw[..i]) + (if PairOf(py, raw[i]).Some? then {PairOf(py, raw[i]).value} else {})
  {
    var longer, shorter := raw[..i + 1], raw[..i];
    forall p | p in PairsIn(py, shorter) ensures p in PairsIn(py, longer) {
      var j :| 0 <= j < |shorter| && PairOf(py, shorter[j]) == Some(p);
      assert longer[j] == shorter[j];
    }
    forall p | p in PairsIn(py, longer) ensures p in PairsIn(py, shorter) || PairOf(py, raw[i]) == Some(p) {
      var j :| 0 <= j < |longer| && PairOf(py, longer[j]) == Some(p);
      assert j < i ==> shorter[j] == longer[j];
    }
    assert longer[i] == raw[i];
  }

  /** " ".join(s.split()): no space at either end, runs of whitespace become one space. */
  function Collapse(py: Python, s: string): string {
    if s == "" then ""
    else if py.space(s[|s| - 1]) then Collapse(py, s[..|s| - 1])
    else
      var rest := Collapse(py, s[..|s| - 1]);
      if rest != "" && |s| >= 2 && py.space(s[|s| - 2]) then rest + " " + [s[|s| - 1]] else rest + [s[|s| - 1]]
  }

  function Normal(py: Python, caseInsensitive: bool, v: Json): string {
    if !caseInsensitive then Collapse(py, py.str(v))
    else if v.Null? then ""
    else Collapse(py, py.lower(py.str(v)))
  }

  predicate Fills(py: Python, ci: bool, alternatives: seq<string>, given: Json) {
    exists a :: a in alternatives && Normal(py, ci, Str(a)) == Normal(py, ci, given)
  }

  function Filled(py: Python, ci: bool, blanks: seq<seq<string>>, submitted: seq<Json>): (n: nat)
    ensures n <= |blanks|
  {
    if blanks == [] then 0
    else
      var last := |blanks| - 1;
      Filled(py, ci, blanks[..last], submitted)
      + (if last < |submitted| && Fills(py, ci, blanks[last], submitted[last]) then 1 else 0)
  }

  /** The `case_insensitive` field defaults to true. */
  function FoldsCase(payload: Payload): bool {
    !payload.Blanks? || payload.caseInsensitive
  }

  function BlankGrade(py: Python, payload: Payload, response: Response): Grade {
    var blanks, submitted := BlankLists(payload), ListAt(response, "answers");
    if NotAList(response, "answers") || blanks == [] then Zero
    else
      var filled := Filled(py, FoldsCase(payload), blanks, submitted);
      Grade(filled as real / |blanks| as real, 1.0, Some(filled == |blanks|), false)
  }

  method GradeFillBlank(py: Python, payload: Payload, response: Response) returns (grade: Grade)
    ensures grade == BlankGrade(py, payload, response)
  {
    var blanks, submitted := BlankLists(payload), ListAt(response, "answers");
    var ci := FoldsCase(payload);
    if NotAList(response, "answers") || blanks == [] {
      return Zero;
    }
    var correctCount := 0;
    for idx := 0 to |blanks|
      invariant correctCount == Filled(py, ci, blanks[..idx], submitted)
    {
      assert blanks[..idx + 1][..idx] == blanks[..idx];
      if idx >= |submitted| {
        continue;
      }
      var given := Normal(py, ci, submitted[idx]);
      if exists alt :: alt in blanks[idx] && Normal(py, ci, Str(alt)) == given {
        correctCount := correctCount + 1;
      }
    }
    assert blanks[..|blanks|] == blanks;
    return Grade(correctCount as real / |blanks| as real, 1.0, Some(correctCount == |blanks|), false);
  }

  // ----- grade_question -----

  function GradeOf(py: Python, kind: Kind, payload: Payload, response: Response): Grade {
    match kind
    case SingleKind => GradeSingle(payload, response)
    case MultipleKind => GradeMultiple(payload, response)
    case TrueFalseKind => GradeTrueFalse(payload, response)
    case MatchingKind => MatchingGrade(py, payload, response)
    case OrderingKind => GradeOrdering(payload, response)
    case BlankKind => BlankGrade(py, payload, response)
    case _ => Grade(0.0, 1.0, None, true)
  }

  method GradeQuestion(py: Python, kind: Kind, payload: Payload, response: Response) returns (grade: Grade)
    ensures grade == GradeOf(py, kind, payload, response)
  {
    match kind
    case MatchingKind => grade := GradeMatching(py, payload, response);
    case BlankKind => grade := GradeFillBlank(py, payload, response);
    case _ => grade := GradeOf(py, kind, payload, response);
  }

  // ----- what the scores mean -----

  lemma UnionIsLarger<T>(a: set<T>, b: set<T>)
    ensures |a * b| <= |b| <= |a + b|
    ensures |a + b| == |a| + |b - a|
  {
    SubsetIsSmaller(a * b, b);
    SubsetIsSmaller(b, a + b);
    assert a + b == a + (b - a);
  }

  lemma {:induction false} SubsetIsSmaller<T>(a: set<T>, b: set<T>)
    requires a <= b
    ensures |a| <= |b|
    ensures |a| == |b| ==> a == b
  {
    if a != {} {
      var x :| x in a;
      SubsetIsSmaller(a - {x}, b - {x});
      assert a == (a - {x}) + {x} && b == (b - {x}) + {x};
    }
  }

  lemma RatioIsOne(n: int, d: int)
    requires 0 <= n <= d && 0 < d
    ensures 0.0 <= n as real / d as real <= 1.0
    ensures n as real / d as real == 1.0 <==> n == d
  {
    assert (n as real / d as real) * d as real == n as real;
  }

  /** Jaccard similarity is one for equal sets only. */
  lemma JaccardIsOne<T>(a: set<T>, b: set<T>)
    requires b != {}
    ensures |a + b| > 0
    ensures 0.0 <= |a * b| as real / |a + b| as real <= 1.0
    ensures |a * b| as real / |a + b| as real == 1.0 <==> a == b
  {
    UnionIsLarger(a, b);
    UnionIsLarger(b, a);
    assert a * b == b * a && a + b == b + a;
    SubsetIsSmaller(a * b, b);
    SubsetIsSmaller(a * b, a + b);
    RatioIsOne(|a * b|, |a + b|);
    if |a * b| == |a + b| {
      assert a * b == a + b;
      assert a == b by {
        assert forall x :: x in a ==> x in a * b;
        assert forall x :: x in b ==> x in a * b;
      }
    }
    if a == b {
      assert a * b == a + b;
    }
  }

  lemma CoverageRatio<T>(submitted: set<T>, correct: set<T>)
    requires correct != {}
    ensures |correct| > 0
    ensures 0.0 <= |submitted * correct| as real / |correct| as real <= 1.0
    ensures |submitted * correct| as real / |correct| as real == 1.0 <==> correct <= submitted
  {
    SubsetIsSmaller(submitted * correct, correct);
    RatioIsOne(|submitted * correct|, |correct|);
    assert submitted * correct == correct <==> correct <= submitted;
  }

  lemma MatchingIsCoverage(py: Python, payload: Payload, response: Response)
    requires payload.Matching? && Valid(payload)
    ensures var grade := MatchingGrade(py, payload, response);
            var correct, submitted := Elements(payload.correctPairs), PairsIn(py, ListAt(response, "pairs"));
            && (grade.awarded == 1.0 <==> correct <= submitted)
            && (grade.correct == Some(true) <==> correct == submitted)
  {
    assert payload.correctPairs[0] in Elements(payload.correctPairs);
    CoverageRatio(PairsIn(py, ListAt(response, "pairs")), Elements(payload.correctPairs));
  }

  /** Submitting every left item with every right item wins a matching question: full score, yet not marked correct. */
  lemma ShotgunWinsMatching(py: Python, payload: Payload, response: Response)
    requires payload.Matching? && Valid(payload)
    requires PairsIn(py, ListAt(response, "pairs")) == set l, r | 0 <= l < payload.left && 0 <= r < payload.right :: (l, r)
    ensures MatchingGrade(py, payload, response).awarded == 1.0
    ensures MatchingGrade(py, payload, response).correct == Some(false)
  {
    MatchingIsCoverage(py, payload, response);
    EverythingIsTooMuch(payload.left, payload.right, payload.correctPairs, PairsIn(py, ListAt(response, "pairs")));
  }

  lemma EverythingIsTooMuch(left: nat, right: nat, pairs: seq<(int, int)>, submitted: set<(int, int)>)
    requires left >= 2 && right >= 2 && forall i :: 0 <= i < |pairs| ==> 0 <= pairs[i].0 < left && 0 <= pairs[i].1 < right
    requires forall i, j :: 0 <= i < j < |pairs| ==> pairs[i].0 != pairs[j].0
    requires submitted == set l, r | 0 <= l < left && 0 <= r < right :: (l, r)
    ensures Elements(pairs) <= submitted && Elements(pairs) != submitted
  {
    assert (0, 0) in submitted && (0, 1) in submitted;
    assert !((0, 0) in pairs && (0, 1) in pairs);
  }

  lemma {:induction false} AllAgree(submitted: seq<Json>, correct: seq<int>)
    requires |submitted| == |correct|
    ensures Agreeing(submitted, correct) == |correct| <==> forall i :: 0 <= i < |correct| ==> EqualsInt(submitted[i], correct[i])
  {
    if correct != [] {
      var last := |correct| - 1;
      AllAgree(submitted[..last], correct[..last]);
      assert forall i :: 0 <= i < last ==> submitted[..last][i] == submitted[i] && correct[..last][i] == correct[i];
      assert EqualsInt(submitted[last], correct[last]) <==> EqualsInt(submitted[|correct| - 1], correct[|correct| - 1]);
    }
  }

  lemma {:induction false} AllFilled(py: Python, ci: bool, blanks: seq<seq<string>>, submitted: seq<Json>)
    ensures Filled(py, ci, blanks, submitted) == |blanks| <==>
            |blanks| <= |submitted| && forall i :: 0 <= i < |blanks| ==> Fills(py, ci, blanks[i], submitted[i])
  {
    if blanks != [] {
      var last := |blanks| - 1;
      AllFilled(py, ci, blanks[..last], submitted);
      assert forall i :: 0 <= i < last ==> blanks[..last][i] == blanks[i];
    }
  }

  // ----- what a response says, value by value -----

  /** A JSON value that is the integer `n` for Python: true and false are 1 and 0. */
  predicate IsInt(v: Json, n: int) {
    v == Int(n) || (v == Bool(true) && n == 1) || (v == Bool(false) && n == 0)
  }

  predicate IsNumber(v: Json, n: int) {
    IsInt(v, n) || v == Float(n as real)
  }

  /** int(v) is `n`: a float loses what is behind the point, a text is parsed. */
  predicate CutsTo(py: Python, v: Json, n: int) {
    || IsInt(v, n)
    || (v.Str? && py.parse(v.s) == Some(n))
    || (v.Float? && if v.x >= 0.0 then n as real <= v.x < n as real + 1.0 else n as real - 1.0 < v.x <= n as real)
  }

  ghost predicate Picked(response: Response, n: int) {
    && "selected_indices" in response && response["selected_indices"].List?
    && exists i :: 0 <= i < |response["selected_indices"].items| && IsInt(response["selected_indices"].items[i], n)
  }

  ghost predicate IsPair(py: Python, v: Json, pair: (int, int)) {
    v.List? && |v.items| == 2 && CutsTo(py, v.items[0], pair.0) && CutsTo(py, v.items[1], pair.1)
  }

  ghost predicate Paired(py: Python, response: Response, pair: (int, int)) {
    && "pairs" in response && response["pairs"].List?
    && exists i :: 0 <= i < |response["pairs"].items| && IsPair(py, response["pairs"].items[i], pair)
  }

  predicate PlacedRight(response: Response, order: seq<int>, i: nat) {
    && "order" in response && response["order"].List? && i < |response["order"].items| && i < |order|
    && IsNumber(response["order"].items[i], order[i])
  }

  /** The text that is compared: case folding also makes null an empty answer. */
  function Compared(py: Python, ci: bool, v: Json): string {
    if !ci then py.str(v) else if v.Null? then "" else py.lower(py.str(v))
  }

  /** The same words, however they are spaced. */
  predicate SameText(py: Python, ci: bool, a: Json, b: Json) {
    Spaced(Words(py.space, Compared(py, ci, a))) == Spaced(Words(py.space, Compared(py, ci, b)))
  }

  ghost predicate FilledRight(py: Python, ci: bool, response: Response, blanks: seq<seq<string>>, i: nat) {
    && "answers" in response && response["answers"].List? && i < |response["answers"].items| && i < |blanks|
    && exists a :: a in blanks[i] && SameText(py, ci, Str(a), response["answers"].items[i])
  }

  lemma AsIntIff(v: Json, n: int)
    ensures AsInt(v) == Some(n) <==> IsInt(v, n)
    ensures EqualsInt(v, n) <==> IsNumber(v, n)
  {
  }

  lemma ToIntIff(py: Python, v: Json, n: int)
    ensures ToInt(py, v) == Some(n) <==> CutsTo(py, v, n)
  {
  }

  lemma PairOfIff(py: Python, v: Json, pair: (int, int))
    ensures PairOf(py, v) == Some(pair) <==> IsPair(py, v, pair)
  {
    if v.List? && |v.items| == 2 {
      ToIntIff(py, v.items[0], pair.0);
      ToIntIff(py, v.items[1], pair.1);
    }
  }

  lemma SelectedIff(response: Response, n: int)
    ensures n in Selected(response) <==> Picked(response, n)
  {
    var raw := ListAt(response, "selected_indices");
    forall i | 0 <= i < |raw| ensures AsInt(raw[i]) == Some(n) <==> IsInt(raw[i], n) {
      AsIntIff(raw[i], n);
    }
  }

  lemma PairsInIff(py: Python, response: Response, pair: (int, int))
    ensures pair in PairsIn(py, ListAt(response, "pairs")) <==> Paired(py, response, pair)
  {
    var raw := ListAt(response, "pairs");
    forall i | 0 <= i < |raw| ensures PairOf(py, raw[i]) == Some(pair) <==> IsPair(py, raw[i], pair) {
      PairOfIff(py, raw[i], pair);
    }
  }

  /** " ".join(s.split()): the words of the text with one blank between them. */
  lemma {:induction false} CollapseJoinsWords(py: Python, s: string)
    ensures Collapse(py, s) == Spaced(Words(py.space, s))
  {
    if s != "" {
      var front, last := s[..|s| - 1], s[|s| - 1];
      assert s == front + [last];
      CollapseJoinsWords(py, front);
      EndOfWords(py.space, front);
      OneMore(py.space, front, last);
      SpacedOneMore(py.space, front, last, Words(py.space, front));
      CollapseOneMore(py, front, last);
    }
  }

  lemma CollapseOneMore(py: Python, front: string, last: char)
    ensures Collapse(py, front + [last])
         == if py.space(last) then Collapse(py, front)
            else if Collapse(py, front) != "" && front != "" && py.space(front[|front| - 1]) then Collapse(py, front) + " " + [last]
            else Collapse(py, front) + [last]
  {
    assert (front + [last])[..|front|] == front;
  }

  /** Two texts have the same normal form exactly when they have the same words; one without a space is its own. */
  lemma CollapseAlikeIff(py: Python, a: string, b: string)
    requires py.space(' ')
    ensures Collapse(py, a) == Collapse(py, b) <==> Words(py.space, a) == Words(py.space, b)
    ensures (forall c :: c in a ==> !py.space(c)) ==> Collapse(py, a) == a
  {
    CollapseJoinsWords(py, a);
    CollapseJoinsWords(py, b);
    SpacedAlikeIff(py.space, a, b);
    if a != "" && forall c :: c in a ==> !py.space(c) {
      WholeWord(py.space, a);
    }
  }

  lemma FillsIff(py: Python, ci: bool, alternatives: seq<string>, given: Json)
    ensures Fills(py, ci, alternatives, given) <==> exists a :: a in alternatives && SameText(py, ci, Str(a), given)
  {
    forall v ensures Normal(py, ci, v) == Spaced(Words(py.space, Compared(py, ci, v))) {
      CollapseJoinsWords(py, Compared(py, ci, v));
    }
  }

  /** What a completely right response is, type by type. */
  ghost predicate FullyRight(py: Python, payload: Payload, response: Response) {
    match payload
    case Single(_, index) => "selected_index" in response && IsInt(response["selected_index"], index)
    case Multiple(_, indices) => forall n :: n in indices <==> Picked(response, n)
    case TrueFalse(correct) => "selected" in response && response["selected"] == Bool(correct)
    case Matching(_, _, pairs) => forall pair :: pair in pairs <==> Paired(py, response, pair)
    case Ordering(_, order) =>
      && "order" in response && response["order"].List? && |response["order"].items| == |order|
      && forall i :: 0 <= i < |order| ==> PlacedRight(response, order, i)
    case Blanks(blanks, ci) => forall i :: 0 <= i < |blanks| ==> FilledRight(py, ci, response, blanks, i)
    case _ => false
  }

  /** The grade of a closed question: a score in [0, 1] and a verdict. */
  ghost predicate UnitGrade(grade: Grade) {
    0.0 <= grade.awarded <= grade.max == 1.0 && !grade.review && grade.correct.Some?
  }

  /** Every grader awards a score in [0, 1] for every payload and response, whatever the type column says. */
  lemma ScoresAreUnit(py: Python, kind: Kind, payload: Payload, response: Response)
    ensures var grade := GradeOf(py, kind, payload, response);
            && 0.0 <= grade.awarded <= grade.max == 1.0 && (IsOpen(kind) ==> grade.awarded == 0.0)
            && grade.review == IsOpen(kind) && (grade.correct.None? <==> IsOpen(kind))
  {
    if !IsOpen(kind) {
      ClosedIsUnit(py, kind, payload, response);
    }
  }

  lemma ClosedIsUnit(py: Python, kind: Kind, payload: Payload, response: Response)
    requires !IsOpen(kind)
    ensures UnitGrade(GradeOf(py, kind, payload, response))
  {
    match kind
    case MultipleKind => MultipleScore(payload, response);
    case MatchingKind => MatchingScore(py, payload, response);
    case OrderingKind => OrderingScore(payload, response);
    case BlankKind => BlankScore(py, payload, response);
    case _ =>
  }

  lemma MultipleScore(payload: Payload, response: Response)
    ensures UnitGrade(GradeMultiple(payload, response))
  {
    if Elements(CorrectIndices(payload)) != {} {
      JaccardIsOne(Selected(response), Elements(CorrectIndices(payload)));
    }
  }

  lemma MatchingScore(py: Python, payload: Payload, response: Response)
    ensures UnitGrade(MatchingGrade(py, payload, response))
  {
    if Elements(CorrectPairs(payload)) != {} {
      CoverageRatio(PairsIn(py, ListAt(response, "pairs")), Elements(CorrectPairs(payload)));
    }
  }

  lemma OrderingScore(payload: Payload, response: Response)
    ensures UnitGrade(GradeOrdering(payload, response))
    ensures CorrectOrder(payload) != [] ==>
              (GradeOrdering(payload, response).awarded == 1.0 <==> GradeOrdering(payload, response).correct == Some(true))
  {
    var correct, submitted := CorrectOrder(payload), ListAt(response, "order");
    if |submitted| == |correct| > 0 {
      RatioIsOne(Agreeing(submitted, correct), |correct|);
    }
  }

  lemma BlankScore(py: Python, payload: Payload, response: Response)
    ensures UnitGrade(BlankGrade(py, payload, response))
    ensures BlankGrade(py, payload, response).awarded == 1.0 <==> BlankGrade(py, payload, response).correct == Some(true)
  {
    var blanks, submitted := BlankLists(payload), ListAt(response, "answers");
    if blanks != [] {
      RatioIsOne(Filled(py, FoldsCase(payload), blanks, submitted), |blanks|);
    }
  }

  lemma MultipleIsEquality(payload: Payload, response: Response)
    requires payload.Multiple? && Valid(payload)
    ensures var grade := GradeMultiple(payload, response);
            && (grade.correct == Some(true) <==> Selected(response) == Elements(payload.correctIndices))
            && (grade.correct == Some(true) <==> grade.awarded == 1.0)
  {
    assert payload.correctIndices[0] in Elements(payload.correctIndices);
    JaccardIsOne(Selected(response), Elements(payload.correctIndices));
  }

  lemma OrderingIsAgreement(payload: Payload, response: Response)
    requires payload.Ordering? && Valid(payload)
    ensures var submitted := ListAt(response, "order");
            GradeOrdering(payload, response).correct == Some(true) <==>
            |submitted| == |payload.correctOrder| && forall i :: 0 <= i < |submitted| ==> EqualsInt(submitted[i], payload.correctOrder[i])
  {
    var submitted := ListAt(response, "order");
    if |submitted| == |payload.correctOrder| {
      AllAgree(submitted, payload.correctOrder);
    }
  }

  /** Correct exactly when every blank holds the words of one of its alternatives: of their str() forms, folded by str.lower()
      if case is ignored, null then being an empty answer. */
  lemma BlanksAreFilled(py: Python, payload: Payload, response: Response)
    requires payload.Blanks? && Valid(payload)
    ensures BlankGrade(py, payload, response).correct == Some(true) <==>
            forall i :: 0 <= i < |payload.blanks| ==> FilledRight(py, payload.caseInsensitive, response, payload.blanks, i)
  {
    AllFilled(py, payload.caseInsensitive, payload.blanks, ListAt(response, "answers"));
    forall i: nat | i < |payload.blanks| ensures FilledRight(py, payload.caseInsensitive, response, payload.blanks, i) <==> FillsAt(py, payload, response, i) {
      FilledRightIff(py, payload, response, i);
    }
    EveryOneFilled(py, payload, response);
  }

  ghost predicate FillsAt(py: Python, payload: Payload, response: Response, i: nat)
    requires payload.Blanks? && i < |payload.blanks|
  {
    var submitted := ListAt(response, "answers");
    i < |submitted| && Fills(py, payload.caseInsensitive, payload.blanks[i], submitted[i])
  }

  lemma EveryOneFilled(py: Python, payload: Payload, response: Response)
    requires payload.Blanks? && Valid(payload)
    requires forall i: nat :: i < |payload.blanks| ==>
               (FilledRight(py, payload.caseInsensitive, response, payload.blanks, i) <==> FillsAt(py, payload, response, i))
    ensures var submitted := ListAt(response, "answers");
            (|payload.blanks| <= |submitted|
             && forall i :: 0 <= i < |payload.blanks| ==> Fills(py, payload.caseInsensitive, payload.blanks[i], submitted[i]))
            <==> forall i :: 0 <= i < |payload.blanks| ==> FilledRight(py, payload.caseInsensitive, response, payload.blanks, i)
  {
    var n, ci, submitted := |payload.blanks|, payload.caseInsensitive, ListAt(response, "answers");
    if forall i :: 0 <= i < n ==> FilledRight(py, ci, response, payload.blanks, i) {
      assert FilledRight(py, ci, response, payload.blanks, n - 1) && FillsAt(py, payload, response, n - 1);
      forall i | 0 <= i < n ensures Fills(py, ci, payload.blanks[i], submitted[i]) {
        assert FilledRight(py, ci, response, payload.blanks, i) && FillsAt(py, payload, response, i);
      }
    }
    if n <= |submitted| && forall i :: 0 <= i < n ==> Fills(py, ci, payload.blanks[i], submitted[i]) {
      forall i | 0 <= i < n ensures FilledRight(py, ci, response, payload.blanks, i) {
        assert FillsAt(py, payload, response, i);
      }
    }
  }

  // ----- partial credit -----

  ghost function AgreeSet(submitted: seq<Json>, correct: seq<int>): set<nat> {
    set i: nat | i < |correct| && i < |submitted| && IsNumber(submitted[i], correct[i])
  }

  lemma AgreeSnoc(submitted: seq<Json>, correct: seq<int>, v: Json, n: int)
    requires |submitted| == |correct|
    ensures AgreeSet(submitted + [v], correct + [n]) == AgreeSet(submitted, correct) + (if IsNumber(v, n) then {|correct|} else {})
    ensures |correct| !in AgreeSet(submitted, correct)
  {
    forall i: nat | i < |correct| ensures (submitted + [v])[i] == submitted[i] && (correct + [n])[i] == correct[i] {
    }
  }

  lemma {:induction false} AgreeingCounts(submitted: seq<Json>, correct: seq<int>)
    requires |submitted| == |correct|
    ensures Agreeing(submitted, correct) == |AgreeSet(submitted, correct)|
  {
    if correct != [] {
      var last := |correct| - 1;
      AgreeingCounts(submitted[..last], correct[..last]);
      AsIntIff(submitted[last], correct[last]);
      AgreeSnoc(submitted[..last], correct[..last], submitted[last], correct[last]);
      assert submitted[..last] + [submitted[last]] == submitted && correct[..last] + [correct[last]] == correct;
    }
  }

  ghost function FilledSet(py: Python, ci: bool, blanks: seq<seq<string>>, submitted: seq<Json>): set<nat> {
    set i: nat | i < |blanks| && i < |submitted| && Fills(py, ci, blanks[i], submitted[i])
  }

  lemma FilledSnoc(py: Python, ci: bool, blanks: seq<seq<string>>, blank: seq<string>, submitted: seq<Json>)
    ensures FilledSet(py, ci, blanks + [blank], submitted)
         == FilledSet(py, ci, blanks, submitted)
            + (if |blanks| < |submitted| && Fills(py, ci, blank, submitted[|blanks|]) then {|blanks|} else {})
    ensures |blanks| !in FilledSet(py, ci, blanks, submitted)
  {
    forall i: nat | i < |blanks| ensures (blanks + [blank])[i] == blanks[i] {
    }
  }

  lemma {:induction false} FilledCounts(py: Python, ci: bool, blanks: seq<seq<string>>, submitted: seq<Json>)
    ensures Filled(py, ci, blanks, submitted) == |FilledSet(py, ci, blanks, submitted)|
  {
    if blanks != [] {
      var last := |blanks| - 1;
      FilledCounts(py, ci, blanks[..last], submitted);
      FilledSnoc(py, ci, blanks[..last], blanks[last], submitted);
      assert blanks[..last] + [blanks[last]] == blanks;
    }
  }

  lemma Quotient(share: real, n: nat, d: nat)
    requires d > 0 && share == n as real / d as real
    ensures IsShare(share, n, d)
  {
  }

  /** The award is `n` parts out of `d`. */
  predicate IsShare(awarded: real, n: nat, d: nat) {
    awarded * d as real == n as real
  }

  lemma SelectedSet(response: Response, picked: set<int>)
    requires forall n :: n in picked <==> Picked(response, n)
    ensures Selected(response) == picked
  {
    forall n ensures n in Selected(response) <==> n in picked {
      SelectedIff(response, n);
    }
  }

  lemma SubmittedSet(py: Python, response: Response, submitted: set<(int, int)>)
    requires forall pair :: pair in submitted <==> Paired(py, response, pair)
    ensures PairsIn(py, ListAt(response, "pairs")) == submitted
  {
    forall pair ensures pair in PairsIn(py, ListAt(response, "pairs")) <==> pair in submitted {
      PairsInIff(py, response, pair);
    }
  }

  lemma SomeElement<T>(s: seq<T>)
    requires s != []
    ensures Elements(s) != {} && |Elements(s)| > 0
  {
    assert s[0] in Elements(s);
  }

  /** Multiple choice: the options picked rightly over the options that are right or were picked. */
  lemma MultipleCredit(payload: Payload, response: Response, picked: set<int>)
    requires payload.Multiple? && Valid(payload) && forall n :: n in picked <==> Picked(response, n)
    ensures var right := Elements(payload.correctIndices);
            IsShare(GradeMultiple(payload, response).awarded, |picked * right|, |picked + right|)
  {
    var right := Elements(payload.correctIndices);
    SelectedSet(response, picked);
    SomeElement(payload.correctIndices);
    UnionIsLarger(picked, right);
    if picked != {} {
      Quotient(GradeMultiple(payload, response).awarded, |picked * right|, |picked + right|);
    } else {
      assert GradeMultiple(payload, response).awarded == 0.0 && |picked * right| == 0;
    }
  }

  /** Matching: the right pairs submitted over the right pairs; wrong ones cost nothing. */
  lemma MatchingCredit(py: Python, payload: Payload, response: Response, submitted: set<(int, int)>)
    requires payload.Matching? && Valid(payload) && forall pair :: pair in submitted <==> Paired(py, response, pair)
    ensures var right := Elements(payload.correctPairs);
            IsShare(MatchingGrade(py, payload, response).awarded, |submitted * right|, |right|)
  {
    var right := Elements(payload.correctPairs);
    SubmittedSet(py, response, submitted);
    SomeElement(payload.correctPairs);
    Quotient(MatchingGrade(py, payload, response).awarded, |submitted * right|, |right|);
  }

  ghost function RightPositions(response: Response, order: seq<int>): set<nat> {
    set i: nat | i < |order| && PlacedRight(response, order, i)
  }

  /** Ordering: the positions that are right over all positions; a list of another length is worth nothing. */
  lemma OrderingCredit(payload: Payload, response: Response)
    requires payload.Ordering? && Valid(payload)
    ensures IsShare(GradeOrdering(payload, response).awarded,
                    if "order" in response && response["order"].List? && |response["order"].items| == |payload.correctOrder|
                    then |RightPositions(response, payload.correctOrder)| else 0,
                    |payload.correctOrder|)
  {
    var submitted, order := ListAt(response, "order"), payload.correctOrder;
    if |submitted| == |order| {
      AgreeingCounts(submitted, order);
      assert RightPositions(response, order) == AgreeSet(submitted, order);
      Quotient(GradeOrdering(payload, response).awarded, |RightPositions(response, order)|, |order|);
    }
  }

  ghost function RightBlanks(py: Python, ci: bool, response: Response, blanks: seq<seq<string>>): set<nat> {
    set i: nat | i < |blanks| && FilledRight(py, ci, response, blanks, i)
  }

  /** Blanks: the blanks filled rightly over all blanks. */
  lemma BlankCredit(py: Python, payload: Payload, response: Response)
    requires payload.Blanks? && Valid(payload)
    ensures IsShare(BlankGrade(py, payload, response).awarded,
                    |RightBlanks(py, payload.caseInsensitive, response, payload.blanks)|, |payload.blanks|)
  {
    var submitted, ci := ListAt(response, "answers"), payload.caseInsensitive;
    FilledCounts(py, ci, payload.blanks, submitted);
    RightBlanksAre(py, payload, response);
    if NotAList(response, "answers") {
      assert FilledSet(py, ci, payload.blanks, submitted) == {};
    } else {
      Quotient(BlankGrade(py, payload, response).awarded, |RightBlanks(py, ci, response, payload.blanks)|, |payload.blanks|);
    }
  }

  lemma RightBlanksAre(py: Python, payload: Payload, response: Response)
    requires payload.Blanks?
    ensures RightBlanks(py, payload.caseInsensitive, response, payload.blanks)
         == FilledSet(py, payload.caseInsensitive, payload.blanks, ListAt(response, "answers"))
  {
    forall i: nat | i < |payload.blanks|
      ensures FilledRight(py, payload.caseInsensitive, response, payload.blanks, i) <==>
              i in FilledSet(py, payload.caseInsensitive, payload.blanks, ListAt(response, "answers"))
    {
      FilledRightIff(py, payload, response, i);
    }
  }

  /** `response.get(key) or []` that is not a list: there is something, and it is neither a list nor empty, zero or false. */
  lemma NotAListIff(response: Response, key: string)
    ensures NotAList(response, key) <==>
            key in response && !response[key].List?
            && response[key] !in {Null, Bool(false), Int(0), Float(0.0), Str(""), Object(map[])}
  {
  }

  /** For a payload stored under its own type, `is_correct` marks exactly the completely right responses; it comes with full
      score, and outside matching full score comes with it. */
  lemma CorrectMeansFullyRight(py: Python, payload: Payload, response: Response)
    requires Valid(payload) && !IsOpen(KindOf(payload))
    ensures MarksRight(py, payload, response, GradeOf(py, KindOf(payload), payload, response))
  {
    if payload.Multiple? {
      MultipleMeansRight(py, payload, response);
    } else if payload.Matching? {
      MatchingMeansRight(py, payload, response);
    } else if payload.Ordering? {
      OrderingMeansRight(py, payload, response);
    } else if payload.Blanks? {
      BlanksMeanRight(py, payload, response);
    } else {
      VerdictMeansRight(py, payload, response);
    }
  }

  /** Marked correct exactly when fully right, and then with full score. */
  ghost predicate MarksRight(py: Python, payload: Payload, response: Response, grade: Grade) {
    && (grade.correct == Some(true) <==> FullyRight(py, payload, response))
    && (grade.correct == Some(true) ==> grade.awarded == 1.0)
    && (!payload.Matching? && grade.awarded == 1.0 ==> grade.correct == Some(true))
  }

  lemma VerdictMeansRight(py: Python, payload: Payload, response: Response)
    requires payload.Single? || payload.TrueFalse?
    ensures MarksRight(py, payload, response, GradeOf(py, KindOf(payload), payload, response))
  {
  }

  lemma MultipleMeansRight(py: Python, payload: Payload, response: Response)
    requires payload.Multiple? && Valid(payload)
    ensures MarksRight(py, payload, response, GradeOf(py, KindOf(payload), payload, response))
  {
    MultipleIsEquality(payload, response);
    MultipleRightIff(py, payload, response);
  }

  lemma MultipleRightIff(py: Python, payload: Payload, response: Response)
    requires payload.Multiple?
    ensures FullyRight(py, payload, response) <==> Selected(response) == Elements(payload.correctIndices)
  {
    var selected, correct := Selected(response), Elements(payload.correctIndices);
    forall n ensures (n in selected <==> Picked(response, n)) && (n in correct <==> n in payload.correctIndices) {
      SelectedIff(response, n);
    }
    if selected == correct {
      forall n ensures n in payload.correctIndices <==> Picked(response, n) {
        assert n in selected <==> n in correct;
      }
    }
    if FullyRight(py, payload, response) {
      forall n ensures n in selected <==> n in correct {
        assert n in payload.correctIndices <==> Picked(response, n);
      }
    }
  }

  lemma MatchingRightIff(py: Python, payload: Payload, response: Response)
    requires payload.Matching?
    ensures FullyRight(py, payload, response) <==> PairsIn(py, ListAt(response, "pairs")) == Elements(payload.correctPairs)
  {
    var submitted, correct := PairsIn(py, ListAt(response, "pairs")), Elements(payload.correctPairs);
    forall pair ensures (pair in submitted <==> Paired(py, response, pair)) && (pair in correct <==> pair in payload.correctPairs) {
      PairsInIff(py, response, pair);
    }
    if submitted == correct {
      forall pair ensures pair in payload.correctPairs <==> Paired(py, response, pair) {
        assert pair in submitted <==> pair in correct;
      }
    }
    if FullyRight(py, payload, response) {
      forall pair ensures pair in submitted <==> pair in correct {
        assert pair in payload.correctPairs <==> Paired(py, response, pair);
      }
    }
  }

  lemma OrderingRightIff(py: Python, payload: Payload, response: Response)
    requires payload.Ordering? && Valid(payload)
    ensures var submitted, order := ListAt(response, "order"), payload.correctOrder;
            FullyRight(py, payload, response) <==>
            |submitted| == |order| && forall i :: 0 <= i < |order| ==> EqualsInt(submitted[i], order[i])
  {
    var submitted, order := ListAt(response, "order"), payload.correctOrder;
    forall i: nat | i < |submitted| && i < |order| ensures EqualsInt(submitted[i], order[i]) <==> PlacedRight(response, order, i) {
      AsIntIff(submitted[i], order[i]);
    }
  }

  lemma FilledRightIff(py: Python, payload: Payload, response: Response, i: nat)
    requires payload.Blanks? && i < |payload.blanks|
    ensures var submitted := ListAt(response, "answers");
            FilledRight(py, payload.caseInsensitive, response, payload.blanks, i) <==>
            i < |submitted| && Fills(py, payload.caseInsensitive, payload.blanks[i], submitted[i])
  {
    var submitted := ListAt(response, "answers");
    if i < |submitted| {
      FillsIff(py, payload.caseInsensitive, payload.blanks[i], submitted[i]);
    }
  }

  lemma MatchingMeansRight(py: Python, payload: Payload, response: Response)
    requires payload.Matching? && Valid(payload)
    ensures MarksRight(py, payload, response, GradeOf(py, KindOf(payload), payload, response))
  {
    MatchingIsCoverage(py, payload, response);
    MatchingRightIff(py, payload, response);
    MatchingMarks(py, payload, response, MatchingGrade(py, payload, response));
  }

  lemma MatchingMarks(py: Python, payload: Payload, response: Response, grade: Grade)
    requires payload.Matching?
    requires grade.correct == Some(true) <==> FullyRight(py, payload, response)
    requires grade.correct == Some(true) ==> grade.awarded == 1.0
    ensures MarksRight(py, payload, response, grade)
  {
  }

  lemma OrderingMeansRight(py: Python, payload: Payload, response: Response)
    requires payload.Ordering? && Valid(payload)
    ensures MarksRight(py, payload, response, GradeOf(py, KindOf(payload), payload, response))
  {
    OrderingIsAgreement(payload, response);
    OrderingScore(payload, response);
    OrderingRightIff(py, payload, response);
  }

  lemma BlanksMeanRight(py: Python, payload: Payload, response: Response)
    requires payload.Blanks? && Valid(payload)
    ensures MarksRight(py, payload, response, GradeOf(py, KindOf(payload), payload, response))
  {
    BlanksAreFilled(py, payload, response);
    BlankScore(py, payload, response);
  }

  lemma MismatchedList(py: Python, kind: Kind, payload: Payload, response: Response)
    requires kind != KindOf(payload) && (kind == SingleKind || kind == MultipleKind || kind == MatchingKind || kind == BlankKind)
    ensures GradeOf(py, kind, payload, response) == Zero
  {
    assert kind == MatchingKind ==> Elements(CorrectPairs(payload)) == {};
    assert kind == MultipleKind ==> Elements(CorrectIndices(payload)) == {};
  }

  /** When the type column disagrees with the payload (create_question takes both from the caller), full score can be won
      only by `selected: false` under true/false, and `is_correct` can come without score only by an empty order. */
  lemma MismatchedType(py: Python, kind: Kind, payload: Payload, response: Response)
    requires kind != KindOf(payload) && !IsOpen(kind)
    ensures var grade := GradeOf(py, kind, payload, response);
            && (grade.awarded == 1.0 <==> kind == TrueFalseKind && "selected" in response && response["selected"] == Bool(false))
            && (grade.correct == Some(true) && grade.awarded < 1.0 <==>
                kind == OrderingKind && !NotAList(response, "order") && ListAt(response, "order") == [])
  {
    if kind != TrueFalseKind && kind != OrderingKind {
      MismatchedList(py, kind, payload, response);
    } else if kind == OrderingKind {
      assert CorrectOrder(payload) == [];
    }
  }
}
