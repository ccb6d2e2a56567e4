/**
  The CSS selector builder of `task/08-objects-tasks.js`.

  An `Element` accumulates the six parts of a compound selector
  (`element#id.class[attr]:pseudoClass::pseudoElement`) in six lists and
  remembers in `_last` the rank of the part most recently added. Every step
  either throws one of two errors or appends its value and moves the cursor.
  A `ComboElement` joins selectors with combinator tokens.

  Steps are modelled as pure transitions returning a `Result`; the JavaScript
  object that is mutated and returned for chaining becomes a new value.
 */
module CssSelectors {
  import opened Wrappers

  /** The six kinds of selector part, in the order they must be supplied. */
  datatype Category =
    | ElementPart
    | IdPart
    | ClassPart
    | AttrPart
    | PseudoClassPart
    | PseudoElementPart

  /** The priority a step of this category records in `_last`. */
  function Rank(c: Category): int
  {
    match c
    case ElementPart => 0
    case IdPart => 1
    case ClassPart => 2
    case AttrPart => 3
    case PseudoClassPart => 4
    case PseudoElementPart => 5
  }

  /** Element, id and pseudo-element may be given at most once. */
  predicate Singleton(c: Category)
  {
    c == ElementPart || c == IdPart || c == PseudoElementPart
  }

  /** The two cases of `ElementException`. */
  datatype SelectorError = DuplicatePart | OutOfOrder

  /** The texts `ElementException` throws, for a repeated singleton part and for parts out of order. */
  const DuplicateText: string :=
    "Element, id and pseudo-element should not occur more then one time inside the selector"
  const OrderText: string :=
    "/Selector parts should be arranged in the following order: element, id, class, attribute, pseudo-class, pseudo-element/"

  /** The text each error case throws. */
  function Message(e: SelectorError): string
  {
    match e
    case DuplicatePart => DuplicateText
    case OutOfOrder => OrderText
  }

  /** The two texts differ, so a caller can tell from the thrown text which rule was broken. */
  lemma MessageIdentifiesError(e1: SelectorError, e2: SelectorError)
    ensures Message(e1) == Message(e2) <==> e1 == e2
  {
    assert DuplicateText[|DuplicateText| - 1] == 'r' && OrderText[|OrderText| - 1] == '/';
  }

  /** The state of one `Element`: its six part lists and the rank cursor `_last`. */
  datatype Builder = Builder(
    element: seq<string>,
    id: seq<string>,
    classes: seq<string>,
    attrs: seq<string>,
    pseudoClasses: seq<string>,
    pseudoElement: seq<string>,
    last: int)

  /** A new `Element`: every list empty and no part added yet. */
  const Fresh: Builder := Builder([], [], [], [], [], [], -1)

  /** The list that holds the parts of category `c`. */
  function Part(b: Builder, c: Category): seq<string>
  {
    match c
    case ElementPart => b.element
    case IdPart => b.id
    case ClassPart => b.classes
    case AttrPart => b.attrs
    case PseudoClassPart => b.pseudoClasses
    case PseudoElementPart => b.pseudoElement
  }

  /** `b` with the list of category `c` replaced by `parts`. */
  function WithPart(b: Builder, c: Category, parts: seq<string>): (r: Builder)
    ensures Part(r, c) == parts && r.last == b.last
    ensures forall c' :: c' != c ==> Part(r, c') == Part(b, c')
  {
    match c
    case ElementPart => b.(element := parts)
    case IdPart => b.(id := parts)
    case ClassPart => b.(classes := parts)
    case AttrPart => b.(attrs := parts)
    case PseudoClassPart => b.(pseudoClasses := parts)
    case PseudoElementPart => b.(pseudoElement := parts)
  }

  /**
    One builder step (`element`, `id`, `class`, `attr`, `pseudoClass` or
    `pseudoElement`). The duplicate test comes first and only singleton
    categories have one; then a step whose rank is below the cursor fails.
   */
  function Step(b: Builder, c: Category, v: string): (r: Result<Builder, SelectorError>)
    ensures r == Err(DuplicatePart) <==> Singleton(c) && |Part(b, c)| == 1
    ensures r == Err(OutOfOrder) <==> !(Singleton(c) && |Part(b, c)| == 1) && b.last > Rank(c)
    ensures r.Ok? ==> Part(r.value, c) == Part(b, c) + [v] && r.value.last == Rank(c)
    ensures r.Ok? ==> forall c' :: c' != c ==> Part(r.value, c') == Part(b, c')
    ensures r.Ok? ==> b.last <= r.value.last
  {
    if Singleton(c) && |Part(b, c)| == 1 then Err(DuplicatePart)
    else if b.last > Rank(c) then Err(OutOfOrder)
    else Ok(WithPart(b, c, Part(b, c) + [v]).(last := Rank(c)))
  }

  /** A step applied to the outcome of earlier steps: a thrown error propagates. */
  function Then(r: Result<Builder, SelectorError>, c: Category, v: string): Result<Builder, SelectorError>
  {
    match r
    case Ok(b) => Step(b, c, v)
    case Err(e) => Err(e)
  }

  /**
    The invariant every reachable builder keeps: the cursor is a rank or -1,
    singleton lists hold at most one value, and no list of a rank above the
    cursor has been filled.
   */
  predicate Valid(b: Builder)
  {
    && -1 <= b.last <= 5
    && (forall c :: Singleton(c) ==> |Part(b, c)| <= 1)
    && (forall c :: Rank(c) > b.last ==> Part(b, c) == [])
  }

  lemma StepPreservesValid(b: Builder, c: Category, v: string)
    requires Valid(b) && Step(b, c, v).Ok?
    ensures Valid(Step(b, c, v).value)
    ensures |Part(b, c)| == 0 || Rank(c) == b.last
  {
  }

  /** For a singleton category the duplicate error wins even when the step is also out of order. */
  lemma DuplicateBeforeOrder(b: Builder, c: Category, v: string)
    requires Valid(b) && Singleton(c) && Part(b, c) != []
    ensures Step(b, c, v) == Err(DuplicatePart)
  {
  }

  /** A `pseudoElement` step never reports the ordering error. */
  lemma PseudoElementNeverOutOfOrder(b: Builder, v: string)
    requires Valid(b)
    ensures Step(b, PseudoElementPart, v) != Err(OutOfOrder)
    ensures Step(b, PseudoElementPart, v).Ok? <==> b.pseudoElement == []
  {
  }

  /**
    After a successful step of category `c`, a step of a lower category fails
    (class then id fails), while a repeated class, attr or pseudo-class succeeds.
   */
  lemma RankOrderAfterStep(b: Builder, c: Category, v: string, c': Category, w: string)
    requires Valid(b) && Step(b, c, v).Ok?
    ensures Rank(c') < Rank(c) ==> Step(Step(b, c, v).value, c', w).Err?
    ensures Rank(c') < Rank(c) && !(Singleton(c') && Part(b, c') != []) ==>
      Step(Step(b, c, v).value, c', w) == Err(OutOfOrder)
    ensures c' == c && !Singleton(c) ==> Step(Step(b, c, v).value, c', w).Ok?
    ensures c' == c && Singleton(c) ==> Step(Step(b, c, v).value, c', w) == Err(DuplicatePart)
  {
  }

  /** The six facade entry points: a fresh builder followed by one step, which never fails. */
  function Start(c: Category, v: string): (r: Result<Builder, SelectorError>)
    ensures r.Ok? && Valid(r.value)
    ensures Part(r.value, c) == [v] && r.value.last == Rank(c)
    ensures forall c' :: c' != c ==> Part(r.value, c') == []
  {
    Step(Fresh, c, v)
  }

  // Rendering

  /** JavaScript's `Array.prototype.join`; `Array#toString` is `Join(parts, ",")`. */
  function Join(parts: seq<string>, sep: string): string
  {
    if |parts| == 0 then ""
    else if |parts| == 1 then parts[0]
    else Join(parts[..|parts| - 1], sep) + sep + parts[|parts| - 1]
  }

  /** The text written before a non-empty section. */
  function Opener(c: Category): string
  {
    match c
    case ElementPart => ""
    case IdPart => "#"
    case ClassPart => "."
    case AttrPart => "["
    case PseudoClassPart => ":"
    case PseudoElementPart => "::"
  }

  /** The text written after a non-empty section. */
  function Closer(c: Category): string
  {
    if c == AttrPart then "]" else ""
  }

  /**
    The separator between values of one section: element, class and
    pseudo-class lists are joined explicitly with `.`, `.` and `:`; id, attr and
    pseudo-element lists are concatenated as strings, which joins with `,`.
   */
  function Separator(c: Category): string
  {
    match c
    case ElementPart => "."
    case ClassPart => "."
    case PseudoClassPart => ":"
    case _ => ","
  }

  /** The contribution of one category to `stringify`: nothing when its list is empty. */
  function Section(b: Builder, c: Category): string
  {
    if |Part(b, c)| == 0 then "" else Opener(c) + Join(Part(b, c), Separator(c)) + Closer(c)
  }

  /** `Element.stringify`: the six sections in rank order. */
  function Stringify(b: Builder): (r: string)
    ensures (forall c :: Part(b, c) == []) ==> r == ""
  {
    Section(b, ElementPart) + Section(b, IdPart) + Section(b, ClassPart)
    + Section(b, AttrPart) + Section(b, PseudoClassPart) + Section(b, PseudoElementPart)
  }

  lemma JoinSnoc(parts: seq<string>, sep: string, v: string)
    requires parts != []
    ensures Join(parts + [v], sep) == Join(parts, sep) + sep + v
  {
    assert (parts + [v])[..|parts|] == parts;
  }

  /** The sections rendered before category `c`. */
  function Before(b: Builder, c: Category): string
  {
    match c
    case ElementPart => ""
    case IdPart => Section(b, ElementPart)
    case ClassPart => Section(b, ElementPart) + Section(b, IdPart)
    case AttrPart => Section(b, ElementPart) + Section(b, IdPart) + Section(b, ClassPart)
    case PseudoClassPart =>
      Section(b, ElementPart) + Section(b, IdPart) + Section(b, ClassPart) + Section(b, AttrPart)
    case PseudoElementPart =>
      Section(b, ElementPart) + Section(b, IdPart) + Section(b, ClassPart) + Section(b, AttrPart)
      + Section(b, PseudoClassPart)
  }

  /** When nothing above `c` is filled, the rendering ends with the section of `c`. */
  lemma StringifyEndsWith(b: Builder, c: Category)
    requires forall c' :: Rank(c') > Rank(c) ==> Part(b, c') == []
    ensures Stringify(b) == Before(b, c) + Section(b, c)
  {
  }

  lemma BeforeSameBelow(b: Builder, b': Builder, c: Category)
    requires forall c' :: Rank(c') < Rank(c) ==> Part(b', c') == Part(b, c')
    ensures Before(b', c) == Before(b, c)
  {
    if Rank(c) > Rank(ElementPart) { assert Part(b', ElementPart) == Part(b, ElementPart); }
    if Rank(c) > Rank(IdPart) { assert Part(b', IdPart) == Part(b, IdPart); }
    if Rank(c) > Rank(ClassPart) { assert Part(b', ClassPart) == Part(b, ClassPart); }
    if Rank(c) > Rank(AttrPart) { assert Part(b', AttrPart) == Part(b, AttrPart); }
    if Rank(c) > Rank(PseudoClassPart) { assert Part(b', PseudoClassPart) == Part(b, PseudoClassPart); }
  }

  lemma AppendAttr(pre: string, j: string, v: string)
    ensures var s := pre + ("[" + j + "]");
      |s| > 0 && s[|s| - 1] == ']' && pre + ("[" + (j + "," + v) + "]") == s[..|s| - 1] + "," + v + "]"
  {
    var s := pre + ("[" + j + "]");
    assert s == (pre + "[" + j) + "]";
    assert s[..|s| - 1] == pre + "[" + j;
  }

  /** How a section written first at the end of `pre` regroups. */
  lemma AppendFirst(pre: string, op: string, v: string, cl: string)
    ensures pre + (op + v + cl) == pre + "" + op + v + cl
  {
  }

  /** How a further value, written with its separator at the end of `pre`'s last section, regroups. */
  lemma AppendAnother(pre: string, op: string, j: string, v: string)
    ensures pre + (op + (j + op + v) + "") == pre + (op + j + "") + op + v + ""
  {
  }

  /** The first value of a category, or a further class or pseudo-class, is written at the end. */
  lemma StringifyAppend(b: Builder, b': Builder, c: Category, v: string)
    requires forall c' :: Rank(c') > Rank(c) ==> Part(b, c') == [] && Part(b', c') == []
    requires forall c' :: Rank(c') < Rank(c) ==> Part(b', c') == Part(b, c')
    requires Part(b', c) == Part(b, c) + [v]
    requires Part(b, c) == [] || c == ClassPart || c == PseudoClassPart
    ensures Stringify(b') == Stringify(b) + Opener(c) + v + Closer(c)
  {
    StringifyEndsWith(b, c);
    StringifyEndsWith(b', c);
    var pre := Before(b, c);
    BeforeSameBelow(b, b', c);
    var l := Part(b, c);
    if l == [] {
      assert Section(b, c) == "";
      assert Section(b', c) == Opener(c) + v + Closer(c);
      AppendFirst(pre, Opener(c), v, Closer(c));
    } else {
      var op := Opener(c);
      JoinSnoc(l, op, v);
      var j := Join(l, op);
      assert Separator(c) == op && Closer(c) == "";
      assert Section(b, c) == op + j + "";
      assert Section(b', c) == op + (j + op + v) + "";
      AppendAnother(pre, op, j, v);
    }
  }

  /** A further attribute goes inside the brackets already written, after a comma. */
  lemma StringifyAppendAttr(b: Builder, b': Builder, v: string)
    requires forall c' :: Rank(c') > Rank(AttrPart) ==> Part(b, c') == [] && Part(b', c') == []
    requires forall c' :: Rank(c') < Rank(AttrPart) ==> Part(b', c') == Part(b, c')
    requires b'.attrs == b.attrs + [v] && b.attrs != []
    ensures var s := Stringify(b);
      |s| > 0 && s[|s| - 1] == ']' && Stringify(b') == s[..|s| - 1] + "," + v + "]"
  {
    StringifyEndsWith(b, AttrPart);
    StringifyEndsWith(b', AttrPart);
    var pre := Before(b, AttrPart);
    BeforeSameBelow(b, b', AttrPart);
    JoinSnoc(b.attrs, ",", v);
    var j := Join(b.attrs, ",");
    assert Section(b, AttrPart) == "[" + j + "]";
    assert Section(b', AttrPart) == "[" + (j + "," + v) + "]";
    AppendAttr(pre, j, v);
  }

  /**
    Because steps come in rank order, each successful step extends the
    rendering at its end: the value is written after everything rendered so
    far, with its category's prefix. The one exception is a second attribute,
    which goes inside the existing brackets after a comma.
   */
  lemma StringifyStep(b: Builder, c: Category, v: string)
    requires Valid(b) && Step(b, c, v).Ok?
    ensures var s := Stringify(b);
      var s' := Stringify(Step(b, c, v).value);
      if c == AttrPart && b.attrs != [] then
        |s| > 0 && s[|s| - 1] == ']' && s' == s[..|s| - 1] + "," + v + "]"
      else
        s' == s + Opener(c) + v + Closer(c)
  {
    var b' := Step(b, c, v).value;
    if c == AttrPart && b.attrs != [] {
      StringifyAppendAttr(b, b', v);
    } else {
      StringifyAppend(b, b', c, v);
    }
  }

  // Chains of calls

  /** One builder call: its category and its argument. */
  datatype Call = Call(category: Category, value: string)

  /** A facade entry point followed by chained calls: the calls applied in order to a fresh builder. */
  function Run(calls: seq<Call>): Result<Builder, SelectorError>
  {
    if |calls| == 0 then Ok(Fresh)
    else Then(Run(calls[..|calls| - 1]), calls[|calls| - 1].category, calls[|calls| - 1].value)
  }

  /** The values of the calls of category `c`, in call order. */
  function Collect(calls: seq<Call>, c: Category): seq<string>
  {
    if |calls| == 0 then []
    else
      var last := calls[|calls| - 1];
      Collect(calls[..|calls| - 1], c) + (if last.category == c then [last.value] else [])
  }

  /**
    The calls a builder accepts, stated independently of the builder: ranks
    never decrease along the chain, and no singleton category occurs twice.
   */
  predicate InOrder(calls: seq<Call>)
  {
    forall i, j :: 0 <= i < j < |calls| ==>
      && Rank(calls[i].category) <= Rank(calls[j].category)
      && (calls[i].category == calls[j].category ==> !Singleton(calls[j].category))
  }

  lemma {:induction false} CollectEmpty(calls: seq<Call>, c: Category)
    ensures Collect(calls, c) == [] <==> forall i :: 0 <= i < |calls| ==> calls[i].category != c
  {
    if |calls| > 0 {
      var p := calls[..|calls| - 1];
      CollectEmpty(p, c);
      assert forall i :: 0 <= i < |p| ==> p[i] == calls[i];
    }
  }

  /** Extending a chain keeps it in order exactly when the new call fits after every earlier one. */
  lemma InOrderSnoc(p: seq<Call>, x: Call)
    ensures InOrder(p + [x]) <==>
      && InOrder(p)
      && (forall i :: 0 <= i < |p| ==> Rank(p[i].category) <= Rank(x.category))
      && (forall i :: 0 <= i < |p| ==> p[i].category == x.category ==> !Singleton(x.category))
  {
    var calls := p + [x];
    assert forall i :: 0 <= i < |p| ==> calls[i] == p[i];
    assert calls[|p|] == x;
    if InOrder(calls) {
      forall i, j | 0 <= i < j < |p|
        ensures Rank(p[i].category) <= Rank(p[j].category)
        ensures p[i].category == p[j].category ==> !Singleton(p[j].category)
      {
        assert calls[i] == p[i] && calls[j] == p[j];
      }
      forall i | 0 <= i < |p|
        ensures Rank(p[i].category) <= Rank(x.category)
        ensures p[i].category == x.category ==> !Singleton(x.category)
      {
        assert calls[i] == p[i] && calls[|p|] == x;
      }
    }
  }

  lemma CollectSnoc(p: seq<Call>, x: Call, c: Category)
    ensures Collect(p + [x], c) == Collect(p, c) + (if x.category == c then [x.value] else [])
  {
    assert (p + [x])[..|p|] == p;
  }

  lemma RunSnoc(p: seq<Call>, x: Call)
    ensures Run(p + [x]) == Then(Run(p), x.category, x.value)
  {
    assert (p + [x])[..|p|] == p;
  }

  /** In an ordered chain the cursor, the rank of the last call, bounds every earlier rank. */
  lemma CursorBoundsRanks(p: seq<Call>, last: int, r: int)
    requires InOrder(p) && 0 <= r
    requires last == (if p == [] then -1 else Rank(p[|p| - 1].category))
    ensures (forall i :: 0 <= i < |p| ==> Rank(p[i].category) <= r) <==> last <= r
  {
    if p != [] {
      assert forall i :: 0 <= i < |p| ==> Rank(p[i].category) <= Rank(p[|p| - 1].category);
    }
  }

  /** A singleton category already called is exactly one whose list holds its one value. */
  lemma EarlierCallOfCategory(p: seq<Call>, b: Builder, c: Category)
    requires Valid(b) && Part(b, c) == Collect(p, c)
    ensures (forall i :: 0 <= i < |p| ==> p[i].category == c ==> !Singleton(c))
      <==> !(Singleton(c) && |Part(b, c)| == 1)
  {
    CollectEmpty(p, c);
  }

  /** One more call on the builder an ordered chain produced succeeds exactly when the longer chain is in order. */
  lemma StepAcceptsNextInOrder(p: seq<Call>, x: Call, b: Builder)
    requires InOrder(p) && Valid(b)
    requires forall c :: Part(b, c) == Collect(p, c)
    requires b.last == (if p == [] then -1 else Rank(p[|p| - 1].category))
    ensures Step(b, x.category, x.value).Ok? <==> InOrder(p + [x])
  {
    InOrderSnoc(p, x);
    CursorBoundsRanks(p, b.last, Rank(x.category));
    EarlierCallOfCategory(p, b, x.category);
  }

  /** A successful call appends its value to what the chain collected for its category. */
  lemma StepCollects(p: seq<Call>, x: Call, b: Builder)
    requires Valid(b)
    requires forall c :: Part(b, c) == Collect(p, c)
    requires Step(b, x.category, x.value).Ok?
    ensures Valid(Step(b, x.category, x.value).value)
    ensures forall c :: Part(Step(b, x.category, x.value).value, c) == Collect(p + [x], c)
  {
    StepPreservesValid(b, x.category, x.value);
    forall c | true
      ensures Part(Step(b, x.category, x.value).value, c) == Collect(p + [x], c)
    {
      CollectSnoc(p, x, c);
    }
  }

  /**
    A chain of calls succeeds exactly when it is in order; the builder it
    yields is valid, holds in each list the values of that category's calls in
    call order, and has its cursor at the rank of the last call.
   */
  lemma {:induction false} RunAcceptsExactlyOrderedCalls(calls: seq<Call>)
    ensures Run(calls).Ok? <==> InOrder(calls)
    ensures Run(calls).Ok? ==>
      && Valid(Run(calls).value)
      && (forall c :: Part(Run(calls).value, c) == Collect(calls, c))
      && Run(calls).value.last == (if calls == [] then -1 else Rank(calls[|calls| - 1].category))
  {
    if |calls| == 0 {
      return;
    }
    var p := calls[..|calls| - 1];
    var x := calls[|calls| - 1];
    assert calls == p + [x];
    RunAcceptsExactlyOrderedCalls(p);
    RunSnoc(p, x);
    if !InOrder(p) {
      InOrderSnoc(p, x);
    } else {
      StepAcceptsNextInOrder(p, x, Run(p).value);
      if Run(calls).Ok? {
        StepCollects(p, x, Run(p).value);
      }
    }
  }

  // Combinators

  /** A renderable selector: a builder, or a `ComboElement` of selectors and combinator tokens. */
  datatype Selector =
    | Compound(builder: Builder)
    | Combo(parts: seq<Selector>, combinators: seq<Option<string>>)

  /** A new `ComboElement`. */
  const EmptyCombo: Selector := Combo([], [])

  /** The text written after a part: the combinator between single spaces, or nothing. */
  function Glue(combinator: Option<string>): string
  {
    match combinator
    case Some(t) => " " + t + " "
    case None => ""
  }

  /** `stringify` of any selector. */
  function Render(s: Selector): string
    decreases s, 1
  {
    match s
    case Compound(b) => Stringify(b)
    case Combo(_, _) => RenderFrom(s, 0)
  }

  /** The rendering of parts `i..` of a combinator node, each followed by its combinator if defined. */
  function RenderFrom(s: Selector, i: nat): string
    requires s.Combo? && i <= |s.parts|
    decreases s, 0, |s.parts| - i
  {
    if i == |s.parts| then ""
    else
      assert s.parts[i] in s.parts;
      Render(s.parts[i])
      + (if i < |s.combinators| then Glue(s.combinators[i]) else "")
      + RenderFrom(s, i + 1)
  }

  lemma PushLast(s: Selector, s': Selector, part: Selector, combinator: Option<string>)
    requires s.Combo? && s'.Combo? && |s.combinators| == |s.parts|
    requires s'.parts == s.parts + [part] && s'.combinators == s.combinators + [combinator]
    ensures RenderFrom(s', |s.parts|) == Render(part) + Glue(combinator)
  {
    var i := |s.parts|;
    assert s'.parts[i] == part && s'.combinators[i] == combinator;
    assert RenderFrom(s', i + 1) == "";
  }

  lemma PushBefore(s: Selector, s': Selector, tail: string, i: nat)
    requires s.Combo? && s'.Combo? && |s.combinators| == |s.parts| && i < |s.parts|
    requires |s.parts| < |s'.parts| && |s.parts| <= |s'.combinators|
    requires s'.parts[i] == s.parts[i] && s'.combinators[i] == s.combinators[i]
    requires RenderFrom(s', i + 1) == RenderFrom(s, i + 1) + tail
    ensures RenderFrom(s', i) == RenderFrom(s, i) + tail
  {
  }

  lemma {:induction false} RenderFromPush(s: Selector, s': Selector, part: Selector, combinator: Option<string>, i: nat)
    requires s.Combo? && s'.Combo? && |s.combinators| == |s.parts| && i <= |s.parts|
    requires s'.parts == s.parts + [part] && s'.combinators == s.combinators + [combinator]
    ensures RenderFrom(s', i) == RenderFrom(s, i) + (Render(part) + Glue(combinator))
    decreases |s.parts| - i
  {
    if i == |s.parts| {
      PushLast(s, s', part, combinator);
    } else {
      var tail := Render(part) + Glue(combinator);
      RenderFromPush(s, s', part, combinator, i + 1);
      assert |s.parts| < |s'.parts| && |s.parts| <= |s'.combinators|;
      assert s'.parts[i] == s.parts[i] && s'.combinators[i] == s.combinators[i];
      PushBefore(s, s', tail, i);
    }
  }

  /**
    `ComboElement.push`: appends a selector and the combinator after it
    (`None` for `undefined`). On a node whose parts and combinators are
    aligned, as every node built by `push` is, the alignment is kept and the
    node renders as before followed by the part's rendering and then its
    combinator.
   */
  function Push(s: Selector, part: Selector, combinator: Option<string>): (r: Selector)
    requires s.Combo?
    ensures r.Combo?
    ensures |s.combinators| == |s.parts| ==>
      |r.combinators| == |r.parts| && Render(r) == Render(s) + Render(part) + Glue(combinator)
  {
    var r := Combo(s.parts + [part], s.combinators + [combinator]);
    if |s.combinators| == |s.parts| then
      RenderFromPush(s, r, part, combinator, 0);
      r
    else
      r
  }

  /** Two renderings around a combinator, as `push` writes them, regroup into the padded form. */
  lemma GlueBetween(a: string, c: string, b: string)
    ensures "" + a + Glue(Some(c)) + b + Glue(None) == a + " " + c + " " + b
  {
  }

  /**
    The facade's `combine`: a node holding both selectors with the combinator
    after the first. It renders as the two renderings around the combinator
    padded with one space on each side, so nested combinations flatten.
   */
  function Combine(s1: Selector, combinator: string, s2: Selector): (r: Selector)
    ensures Render(r) == Render(s1) + " " + combinator + " " + Render(s2)
  {
    assert Render(EmptyCombo) == "";
    var first := Push(EmptyCombo, s1, Some(combinator));
    GlueBetween(Render(s1), combinator, Render(s2));
    Push(first, s2, None)
  }

  // The documented examples, each split into the chain of steps, the
  // rendering of the builder it yields, and the concatenation of literals.

  lemma SectionOfOne(b: Builder, c: Category, v: string)
    requires Part(b, c) == [v]
    ensures Section(b, c) == Opener(c) + v + Closer(c)
  {
  }

  lemma SectionOfTwo(b: Builder, c: Category, v: string, w: string)
    requires Part(b, c) == [v, w]
    ensures Section(b, c) == Opener(c) + (v + Separator(c) + w) + Closer(c)
  {
    assert [v, w][..1] == [v];
    assert Join([v, w], Separator(c)) == v + Separator(c) + w;
  }

  /** Two `class` calls on a builder with no classes yet and a cursor at most at the class rank. */
  lemma TwoClasses(b: Builder, c1: string, c2: string)
    requires b.classes == [] && b.last <= 2
    ensures Then(Then(Ok(b), ClassPart, c1), ClassPart, c2) == Ok(b.(classes := [c1, c2], last := 2))
  {
    var b1 := b.(classes := [c1], last := 2);
    assert Step(b, ClassPart, c1).value.classes == b1.classes;
    assert Step(b, ClassPart, c1) == Ok(b1);
    assert Step(b1, ClassPart, c2).value.classes == [c1, c2];
  }

  lemma ChainIdClasses(id: string, c1: string, c2: string)
    ensures Then(Then(Start(IdPart, id), ClassPart, c1), ClassPart, c2)
      == Ok(Builder([], [id], [c1, c2], [], [], [], 2))
  {
    TwoClasses(Builder([], [id], [], [], [], [], 1), c1, c2);
  }

  lemma RenderIdClasses(id: string, c1: string, c2: string)
    ensures Stringify(Builder([], [id], [c1, c2], [], [], [], 2)) == "#" + id + "." + c1 + "." + c2
  {
    assert "" + ("#" + id + "") + ("." + (c1 + "." + c2) + "") + "" + "" + ""
      == "#" + id + "." + c1 + "." + c2;
    var b := Builder([], [id], [c1, c2], [], [], [], 2);
    SectionOfOne(b, IdPart, id);
    SectionOfTwo(b, ClassPart, c1, c2);
    assert Stringify(b) == "" + ("#" + id + "") + ("." + (c1 + "." + c2) + "") + "" + "" + "";
  }

  /** `id('main').class('container').class('editable')` renders `#main.container.editable`. */
  lemma ExampleIdAndClasses()
    ensures
      var r := Then(Then(Start(IdPart, "main"), ClassPart, "container"), ClassPart, "editable");
      r.Ok? && Stringify(r.value) == "#main.container.editable"
  {
    assert "#" + "main" + "." + "container" + "." + "editable" == "#main.container.editable";
    ChainIdClasses("main", "container", "editable");
    RenderIdClasses("main", "container", "editable");
  }

  lemma ChainElementAttrPseudoClass(e: string, a: string, pc: string)
    ensures Then(Then(Start(ElementPart, e), AttrPart, a), PseudoClassPart, pc)
      == Ok(Builder([e], [], [], [a], [pc], [], 4))
  {
    var b1 := Builder([e], [], [], [], [], [], 0);
    var b2 := Builder([e], [], [], [a], [], [], 3);
    assert Start(ElementPart, e) == Ok(b1);
    assert Step(b1, AttrPart, a).value.attrs == b2.attrs;
    assert Step(b1, AttrPart, a) == Ok(b2);
    assert Step(b2, PseudoClassPart, pc).value.pseudoClasses == [pc];
  }

  lemma RenderElementAttrPseudoClass(e: string, a: string, pc: string)
    ensures Stringify(Builder([e], [], [], [a], [pc], [], 4)) == e + "[" + a + "]" + ":" + pc
  {
    assert ("" + e + "") + "" + "" + ("[" + a + "]") + (":" + pc + "") + ""
      == e + "[" + a + "]" + ":" + pc;
    var b := Builder([e], [], [], [a], [pc], [], 4);
    SectionOfOne(b, ElementPart, e);
    SectionOfOne(b, AttrPart, a);
    SectionOfOne(b, PseudoClassPart, pc);
    assert Stringify(b) == ("" + e + "") + "" + "" + ("[" + a + "]") + (":" + pc + "") + "";
  }

  /** `element('a').attr('href$=".png"').pseudoClass('focus')` renders `a[href$=".png"]:focus`. */
  lemma ExampleAttrAndPseudoClass()
    ensures
      var r := Then(Then(Start(ElementPart, "a"), AttrPart, "href$=\".png\""), PseudoClassPart, "focus");
      r.Ok? && Stringify(r.value) == "a[href$=\".png\"]:focus"
  {
    assert "a" + "[" + "href$=\".png\"" + "]" + ":" + "focus" == "a[href$=\".png\"]:focus";
    ChainElementAttrPseudoClass("a", "href$=\".png\"", "focus");
    RenderElementAttrPseudoClass("a", "href$=\".png\"", "focus");
  }

  lemma ChainElementIdClasses(e: string, id: string, c1: string, c2: string)
    ensures Then(Then(Then(Start(ElementPart, e), IdPart, id), ClassPart, c1), ClassPart, c2)
      == Ok(Builder([e], [id], [c1, c2], [], [], [], 2))
  {
    ChainElementId(e, id);
    TwoClasses(Builder([e], [id], [], [], [], [], 1), c1, c2);
  }

  lemma RenderElementIdClasses(e: string, id: string, c1: string, c2: string)
    ensures Stringify(Builder([e], [id], [c1, c2], [], [], [], 2)) == e + "#" + id + "." + c1 + "." + c2
  {
    assert ("" + e + "") + ("#" + id + "") + ("." + (c1 + "." + c2) + "") + "" + "" + ""
      == e + "#" + id + "." + c1 + "." + c2;
    var b := Builder([e], [id], [c1, c2], [], [], [], 2);
    SectionOfOne(b, ElementPart, e);
    SectionOfOne(b, IdPart, id);
    SectionOfTwo(b, ClassPart, c1, c2);
    assert Stringify(b) == ("" + e + "") + ("#" + id + "") + ("." + (c1 + "." + c2) + "") + "" + "" + "";
  }

  lemma ChainElementId(e: string, id: string)
    ensures Then(Start(ElementPart, e), IdPart, id) == Ok(Builder([e], [id], [], [], [], [], 1))
  {
    var b1 := Builder([e], [], [], [], [], [], 0);
    assert Start(ElementPart, e) == Ok(b1);
    assert Step(b1, IdPart, id).value.id == [id];
  }

  lemma RenderElementId(e: string, id: string)
    ensures Stringify(Builder([e], [id], [], [], [], [], 1)) == e + "#" + id
  {
    assert ("" + e + "") + ("#" + id + "") + "" + "" + "" + "" == e + "#" + id;
    var b := Builder([e], [id], [], [], [], [], 1);
    SectionOfOne(b, ElementPart, e);
    SectionOfOne(b, IdPart, id);
    assert Stringify(b) == ("" + e + "") + ("#" + id + "") + "" + "" + "" + "";
  }

  lemma ChainElementPseudoClass(e: string, pc: string)
    ensures Then(Start(ElementPart, e), PseudoClassPart, pc) == Ok(Builder([e], [], [], [], [pc], [], 4))
  {
    var b1 := Builder([e], [], [], [], [], [], 0);
    assert Start(ElementPart, e) == Ok(b1);
    assert Step(b1, PseudoClassPart, pc).value.pseudoClasses == [pc];
  }

  lemma RenderElementPseudoClass(e: string, pc: string)
    ensures Stringify(Builder([e], [], [], [], [pc], [], 4)) == e + ":" + pc
  {
    assert ("" + e + "") + "" + "" + "" + (":" + pc + "") + "" == e + ":" + pc;
    var b := Builder([e], [], [], [], [pc], [], 4);
    SectionOfOne(b, ElementPart, e);
    SectionOfOne(b, PseudoClassPart, pc);
    assert Stringify(b) == ("" + e + "") + "" + "" + "" + (":" + pc + "") + "";
  }

  /** `element('div').id('main').class('container').class('draggable')` renders `div#main.container.draggable`. */
  lemma ExampleDivCompound()
    ensures
      var div := Then(Then(Then(Start(ElementPart, "div"), IdPart, "main"), ClassPart, "container"), ClassPart, "draggable");
      div.Ok? && Stringify(div.value) == "div#main.container.draggable"
  {
    assert "div" + "#" + "main" + "." + "container" + "." + "draggable" == "div#main.container.draggable";
    ChainElementIdClasses("div", "main", "container", "draggable");
    RenderElementIdClasses("div", "main", "container", "draggable");
  }

  /** `element('table').id('data')` renders `table#data`. */
  lemma ExampleTableCompound()
    ensures
      var table := Then(Start(ElementPart, "table"), IdPart, "data");
      table.Ok? && Stringify(table.value) == "table#data"
  {
    assert "table" + "#" + "data" == "table#data";
    ChainElementId("table", "data");
    RenderElementId("table", "data");
  }

  /** `element('tr')` and `element('td')` with `pseudoClass('nth-of-type(even)')` render as written. */
  lemma ExampleRowCellCompounds()
    ensures
      var tr := Then(Start(ElementPart, "tr"), PseudoClassPart, "nth-of-type(even)");
      tr.Ok? && Stringify(tr.value) == "tr:nth-of-type(even)"
    ensures
      var td := Then(Start(ElementPart, "td"), PseudoClassPart, "nth-of-type(even)");
      td.Ok? && Stringify(td.value) == "td:nth-of-type(even)"
  {
    assert "tr" + ":" + "nth-of-type(even)" == "tr:nth-of-type(even)";
    assert "td" + ":" + "nth-of-type(even)" == "td:nth-of-type(even)";
    ChainElementPseudoClass("tr", "nth-of-type(even)");
    RenderElementPseudoClass("tr", "nth-of-type(even)");
    ChainElementPseudoClass("td", "nth-of-type(even)");
    RenderElementPseudoClass("td", "nth-of-type(even)");
  }

  /**
    The nested combination of the documentation: `div#main.container.draggable`
    combined by `+` with `table#data` combined by `~` with
    `tr:nth-of-type(even)` combined by `' '` with `td:nth-of-type(even)`; the
    space combinator renders as three spaces.
   */
  lemma ExampleNestedCombine()
    ensures
      var div := Then(Then(Then(Start(ElementPart, "div"), IdPart, "main"), ClassPart, "container"), ClassPart, "draggable");
      var table := Then(Start(ElementPart, "table"), IdPart, "data");
      var tr := Then(Start(ElementPart, "tr"), PseudoClassPart, "nth-of-type(even)");
      var td := Then(Start(ElementPart, "td"), PseudoClassPart, "nth-of-type(even)");
      && div.Ok? && table.Ok? && tr.Ok? && td.Ok?
      && Render(Combine(Compound(div.value), "+",
           Combine(Compound(table.value), "~",
             Combine(Compound(tr.value), " ", Compound(td.value)))))
         == "div#main.container.draggable" + " " + "+" + " "
            + ("table#data" + " " + "~" + " " + ("tr:nth-of-type(even)" + " " + " " + " " + "td:nth-of-type(even)"))
  {
    ExampleDivCompound();
    ExampleTableCompound();
    ExampleRowCellCompounds();
  }

  /** A second `element`, `id` or `pseudoElement` call fails; `id` after `class` fails with the ordering error. */
  lemma ExampleErrors()
    ensures Then(Start(ElementPart, "a"), ElementPart, "b") == Err(DuplicatePart)
    ensures Then(Start(IdPart, "a"), IdPart, "b") == Err(DuplicatePart)
    ensures Then(Start(PseudoElementPart, "a"), PseudoElementPart, "b") == Err(DuplicatePart)
    ensures Then(Start(ClassPart, "a"), IdPart, "b") == Err(OutOfOrder)
    ensures Then(Then(Start(ElementPart, "a"), ClassPart, "c"), ElementPart, "b") == Err(DuplicatePart)
  {
  }
}
