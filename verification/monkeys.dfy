/** Monkey in the middle (11/Day11.java): monkeys pass items around. On its
    turn a monkey takes the item at the front of its queue, applies its
    operation to the item's worry level, divides the result by three out of
    relief, and throws the item to one of two monkeys, depending on whether
    the new level is divisible by its test divisor. A round gives every
    monkey one turn, in list order; items thrown during a round join the back
    of the recipient's queue at once. */
module Monkeys {

  import opened Wrappers
  import opened Decimal
  import opened Text
  import opened JavaLang

  /** The exceptions the simulation can raise. */
  datatype Failure =
    | NullPointer       // a `null` Long is unboxed
    | Arithmetic        // division or remainder by zero
    | IndexOutOfBounds  // a missing line, or a recipient that is not in the list
    | IllegalArgument   // a line the parser does not recognise

  // ------------------------------------------------------------------------
  // Expressions

  /** `Operation.OpCode`. */
  datatype OpCode = Add | Subtract | Multiply | Divide

  function Symbol(op: OpCode): char {
    match op
    case Add => '+'
    case Subtract => '-'
    case Multiply => '*'
    case Divide => '/'
  }

  /** `OpCode.fromChar`: exactly the four operator symbols are accepted, each
      for the operation it stands for. */
  function FromChar(c: char): (r: Result<OpCode, Failure>)
    ensures r.Ok? <==> c == '+' || c == '-' || c == '*' || c == '/'
    ensures r.Ok? ==> Symbol(r.value) == c
    ensures r.Err? ==> r.error == IllegalArgument
  {
    match c
    case '+' => Ok(Add)
    case '-' => Ok(Subtract)
    case '*' => Ok(Multiply)
    case '/' => Ok(Divide)
    case _ => Err(IllegalArgument)
  }

  lemma FromCharSymbol(op: OpCode)
    ensures FromChar(Symbol(op)) == Ok(op)
  {
  }

  /** `Expression` with its subclasses `Operation`, `Variable` and `Scalar`. */
  datatype Expr =
    | Operation(op: OpCode, lhs: Expr, rhs: Expr)
    | Variable(name: string)
    | Scalar(value: int)

  /** A `Long` reference: `null`, or a boxed number. */
  datatype Boxed = Null | Long(value: int)

  /** The `switch` of `Operation.evaluate`: both operands are unboxed, and
      division truncates toward zero. */
  function Apply(op: OpCode, lh: Boxed, rh: Boxed): (r: Result<Boxed, Failure>)
    ensures r.Ok? ==> r.value.Long?
    ensures r.Err? <==> lh.Null? || rh.Null? || (op == Divide && rh == Long(0))
  {
    if lh.Null? || rh.Null? then Err(NullPointer)
    else
      match op
      case Add => Ok(Long(lh.value + rh.value))
      case Subtract => Ok(Long(lh.value - rh.value))
      case Multiply => Ok(Long(lh.value * rh.value))
      case Divide => if rh.value == 0 then Err(Arithmetic) else Ok(Long(JavaDiv(lh.value, rh.value)))
  }

  /** `evaluate`: a variable missing from the bindings gives `null`; an
      operation evaluates its left operand, then its right one. */
  function Evaluate(e: Expr, bindings: map<string, int>): (r: Result<Boxed, Failure>)
    ensures e.Operation? && r.Ok? ==> r.value.Long?
  {
    match e
    case Scalar(v) => Ok(Long(v))
    case Variable(name) => Ok(if name in bindings then Long(bindings[name]) else Null)
    case Operation(op, lhs, rhs) =>
      match Evaluate(lhs, bindings)
      case Err(f) => Err(f)
      case Ok(lv) =>
        match Evaluate(rhs, bindings)
        case Err(f) => Err(f)
        case Ok(rv) => Apply(op, lv, rv)
  }

  /** The variables an expression mentions. */
  function Vars(e: Expr): set<string> {
    match e
    case Scalar(_) => {}
    case Variable(name) => {name}
    case Operation(_, lhs, rhs) => Vars(lhs) + Vars(rhs)
  }

  /** Whether an expression contains a division. */
  predicate Divides(e: Expr) {
    match e
    case Scalar(_) => false
    case Variable(_) => false
    case Operation(op, lhs, rhs) => op == Divide || Divides(lhs) || Divides(rhs)
  }

  /** The value of an expression depends on the bindings of its own
      variables only; in particular a scalar's value ignores the bindings. */
  lemma {:induction false} EvaluateLocal(e: Expr, b1: map<string, int>, b2: map<string, int>)
    requires forall x :: x in Vars(e) ==> (x in b1 <==> x in b2) && (x in b1 ==> b1[x] == b2[x])
    ensures Evaluate(e, b1) == Evaluate(e, b2)
  {
    match e
    case Scalar(_) =>
    case Variable(_) =>
    case Operation(_, lhs, rhs) =>
      EvaluateLocal(lhs, b1, b2);
      EvaluateLocal(rhs, b1, b2);
  }

  /** Without division, and with every variable bound, evaluation succeeds
      and gives a number. */
  lemma {:induction false} EvaluateTotal(e: Expr, b: map<string, int>)
    requires Vars(e) <= b.Keys && !Divides(e)
    ensures Evaluate(e, b).Ok? && Evaluate(e, b).value.Long?
  {
    match e
    case Scalar(_) =>
    case Variable(_) =>
    case Operation(_, lhs, rhs) =>
      EvaluateTotal(lhs, b);
      EvaluateTotal(rhs, b);
  }

  // ------------------------------------------------------------------------
  // One monkey

  /** What a monkey does with an item, fixed when it is read: its worry
      operation, the divisor of its test (`parseTest` builds the test
      `x % divisor == 0`), and the monkeys it throws to when the test passes
      and when it fails (`recipients[0]` and `recipients[1]`). */
  datatype Rules = Rules(operation: Expr, divisor: nat, ifDivisible: int, otherwise: int)

  /** `MonkeyThrow`. */
  datatype Throw = Throw(item: int, recipient: int)

  /** `POST_INSPECTION_RELIEF_FACTOR`. */
  const RELIEF_FACTOR := 3

  /** `preInspectionWorryIncrease`: the operation with `old` bound to the
      worry level. */
  function WorryIncrease(operation: Expr, level: int): Result<Boxed, Failure> {
    Evaluate(operation, map["old" := level])
  }

  /** `postInspectionRelief`: unboxing, then truncating division by three. */
  function Relief(level: Boxed): Result<int, Failure> {
    if level.Null? then Err(NullPointer) else Ok(JavaDiv(level.value, RELIEF_FACTOR))
  }

  /** `determineRecipient` with the test `x % divisor == 0` (a zero divisor
      throws). */
  function Recipient(rules: Rules, level: int): Result<int, Failure> {
    if rules.divisor == 0 then Err(Arithmetic)
    else if JavaRem(level, rules.divisor) == 0 then Ok(rules.ifDivisible)
    else Ok(rules.otherwise)
  }

  /** The throw `throwItem` makes of an item: the relieved worry level goes
      to `recipients[0]` exactly when it is divisible by the divisor. */
  function Inspect(rules: Rules, item: int): (r: Result<Throw, Failure>)
    ensures var w := WorryIncrease(rules.operation, item);
      r.Ok? <==> w.Ok? && w.value.Long? && rules.divisor != 0
    ensures r.Ok? ==>
      var v, q := WorryIncrease(rules.operation, item).value.value, r.value.item;
      && (v >= 0 ==> 0 <= v - RELIEF_FACTOR * q < RELIEF_FACTOR)
      && (v < 0 ==> 0 <= RELIEF_FACTOR * q - v < RELIEF_FACTOR)
    ensures r.Ok? && r.value.item % rules.divisor == 0 ==> r.value.recipient == rules.ifDivisible
    ensures r.Ok? && r.value.item % rules.divisor != 0 ==> r.value.recipient == rules.otherwise
  {
    match WorryIncrease(rules.operation, item)
    case Err(f) => Err(f)
    case Ok(w) =>
      match Relief(w)
      case Err(f) => Err(f)
      case Ok(level) =>
        match Recipient(rules, level)
        case Err(f) => Err(f)
        case Ok(to) =>
          RemZero(level, rules.divisor);
          Ok(Throw(level, to))
  }

  /** What the engine sees of a monkey: its queue (front first), its
      inspection count and its rules. */
  datatype MonkeyState = MonkeyState(items: seq<int>, inspected: int, rules: Rules)

  /** `Monkey`: the queue and the counter change; the rules are final. */
  class Monkey {
    var items: seq<int>
    var itemsInspected: int
    const rules: Rules

    constructor (items: seq<int>, rules: Rules)
      ensures this.items == items && this.rules == rules && itemsInspected == 0
    {
      this.items := items;
      this.rules := rules;
      itemsInspected := 0;
    }

    function State(): MonkeyState
      reads this
    {
      MonkeyState(items, itemsInspected, rules)
    }

    /** `hasItems`. */
    predicate HasItems()
      reads this
    {
      items != []
    }

    /** `throwItem`: nothing (`null`) from an empty queue; otherwise one more
        inspection, the front item leaves the queue, and it is thrown as
        `Inspect` says (or the exception it raises propagates, with the item
        already gone and counted). */
    method ThrowItem() returns (r: Result<Option<Throw>, Failure>)
      modifies this
      ensures old(items) == [] ==> r == Ok(None) && items == old(items) && itemsInspected == old(itemsInspected)
      ensures old(items) != [] ==> items == old(items)[1..] && itemsInspected == old(itemsInspected) + 1
      ensures old(items) != [] && Inspect(rules, old(items)[0]).Ok? ==> r == Ok(Some(Inspect(rules, old(items)[0]).value))
      ensures old(items) != [] && Inspect(rules, old(items)[0]).Err? ==> r == Err(Inspect(rules, old(items)[0]).error)
    {
      if items == [] {
        return Ok(None);
      }
      itemsInspected := itemsInspected + 1;
      var item := items[0];
      items := items[1..];
      var worry := WorryIncrease(rules.operation, item);
      if worry.Err? {
        return Err(worry.error);
      }
      var relieved := Relief(worry.value);
      if relieved.Err? {
        return Err(relieved.error);
      }
      var to := Recipient(rules, relieved.value);
      if to.Err? {
        return Err(to.error);
      }
      r := Ok(Some(Throw(relieved.value, to.value)));
    }

    /** `catchItem`: the item joins the back of the queue. */
    method CatchItem(item: int)
      modifies this
      ensures items == old(items) + [item] && itemsInspected == old(itemsInspected)
    {
      items := items + [item];
    }

    /** `fromString`: a fresh monkey with the parsed items and rules and no
        inspections yet. */
    static method FromString(src: string) returns (r: Result<Monkey, Failure>)
      ensures ParseMonkey(src).Err? ==> r == Err(ParseMonkey(src).error)
      ensures ParseMonkey(src).Ok? ==> r.Ok? && fresh(r.value) && r.value.State() == ParseMonkey(src).value
    {
      var parsed := ParseMonkey(src);
      if parsed.Err? {
        return Err(parsed.error);
      }
      var m := new Monkey(parsed.value.items, parsed.value.rules);
      r := Ok(m);
    }
  }

  // ------------------------------------------------------------------------
  // Reading a monkey

  const ITEMS_PREFIX := "  Starting items:"
  const OPERATION_PREFIX := "  Operation: new = "
  const TEST_PREFIX := "  Test: divisible by "

  /** The numbers a repeated search for `\d+` finds in a line, in order:
      the values of the maximal runs of digits. */
  function Numbers(s: string): (r: seq<nat>)
    ensures |r| <= |s|
    decreases |s|
  {
    if s == [] then []
    else if !IsDigit(s[0]) then Numbers(s[1..])
    else
      var k := DigitPrefix(s);
      [Value(s[..k])] + Numbers(s[k..])
  }

  /** `parseItems`. */
  function ParseItems(line: string): (r: Result<seq<int>, Failure>)
    ensures r.Ok? ==> |r.value| <= |line| && forall k :: 0 <= k < |r.value| ==> r.value[k] >= 0
    ensures r.Err? ==> r.error == IllegalArgument && !(ITEMS_PREFIX <= line)
  {
    if ITEMS_PREFIX <= line then Ok(Numbers(line)) else Err(IllegalArgument)
  }

  /** An operand of `parseOperation`: `old` or a digit string. */
  function Operand(token: string): Option<Expr> {
    if token == "old" then Some(Variable("old"))
    else if |token| > 0 && AllDigits(token) then Some(Scalar(Value(token)))
    else None
  }

  /** An operand `parseOperation` accepts: the variable `old` or a number
      written in digits. */
  predicate OldOrNumber(e: Expr) {
    e == Variable("old") || (e.Scalar? && e.value >= 0)
  }

  /** `parseOperation`: the line must be the prefix followed by exactly an
      operand, a space, one operator symbol, a space and an operand. */
  function ParseOperation(line: string): (r: Result<Expr, Failure>)
    ensures r.Ok? ==> OPERATION_PREFIX <= line && r.value.Operation? && OldOrNumber(r.value.lhs) && OldOrNumber(r.value.rhs)
    ensures r.Err? ==> r.error == IllegalArgument
  {
    if !(OPERATION_PREFIX <= line) then Err(IllegalArgument)
    else
      var parts := Split(line[|OPERATION_PREFIX|..], ' ');
      if |parts| != 3 || |parts[1]| != 1 || parts[1][0] !in "*/+-" then Err(IllegalArgument)
      else
        match (Operand(parts[0]), Operand(parts[2]))
        case (Some(lhs), Some(rhs)) =>
          (match FromChar(parts[1][0])
           case Ok(op) => Ok(Operation(op, lhs, rhs))
           case Err(f) => Err(f))
        case _ => Err(IllegalArgument)
  }

  /** `parseTest`: the line must be the prefix followed by digits only. */
  function ParseTest(line: string): (r: Result<nat, Failure>)
    ensures r.Ok? ==> TEST_PREFIX <= line && |line| > |TEST_PREFIX| && AllDigits(line[|TEST_PREFIX|..])
    ensures r.Err? ==> r.error == IllegalArgument
  {
    if TEST_PREFIX <= line && |line| > |TEST_PREFIX| && AllDigits(line[|TEST_PREFIX|..]) then
      Ok(Value(line[|TEST_PREFIX|..]))
    else Err(IllegalArgument)
  }

  /** `parseRecipients`: the first number on each of the two lines. */
  function ParseRecipients(line1: string, line2: string): (r: Result<(int, int), Failure>)
    ensures r.Ok? ==> r.value.0 >= 0 && r.value.1 >= 0
    ensures r.Err? ==> r.error == IllegalArgument
  {
    var n1, n2 := Numbers(line1), Numbers(line2);
    if n1 == [] || n2 == [] then Err(IllegalArgument) else Ok((n1[0], n2[0]))
  }

  /** `fromString`: the lines after the first, read in order; a line that is
      missing throws when it is first needed (the two recipient lines are
      both fetched before either is read). */
  function ParseMonkey(src: string): (r: Result<MonkeyState, Failure>)
    ensures |JavaSplit(src, '\n')| <= 1 ==> r == Err(IndexOutOfBounds)
    ensures r.Ok? ==> var lines := JavaSplit(src, '\n');
      && |lines| >= 6 && r.value.inspected == 0
      && ParseItems(lines[1]) == Ok(r.value.items)
      && ParseOperation(lines[2]) == Ok(r.value.rules.operation)
      && ParseTest(lines[3]) == Ok(r.value.rules.divisor)
      && ParseRecipients(lines[4], lines[5]) == Ok((r.value.rules.ifDivisible, r.value.rules.otherwise))
  {
    var lines := JavaSplit(src, '\n');
    if |lines| <= 1 then Err(IndexOutOfBounds)
    else
      match ParseItems(lines[1])
      case Err(f) => Err(f)
      case Ok(items) =>
        if |lines| <= 2 then Err(IndexOutOfBounds)
        else
          match ParseOperation(lines[2])
          case Err(f) => Err(f)
          case Ok(operation) =>
            if |lines| <= 3 then Err(IndexOutOfBounds)
            else
              match ParseTest(lines[3])
              case Err(f) => Err(f)
              case Ok(divisor) =>
                if |lines| <= 5 then Err(IndexOutOfBounds)
                else
                  match ParseRecipients(lines[4], lines[5])
                  case Err(f) => Err(f)
                  case Ok((to1, to2)) => Ok(MonkeyState(items, 0, Rules(operation, divisor, to1, to2)))
  }

  // ------------------------------------------------------------------------
  // What the parsers read back

  predicate NoDigits(s: string) {
    forall k :: 0 <= k < |s| ==> !IsDigit(s[k])
  }

  /** The search for `\d+` finds nothing exactly in a line without digits. */
  lemma {:induction false} NumbersEmpty(s: string)
    ensures Numbers(s) == [] <==> NoDigits(s)
    decreases |s|
  {
    if s != [] && !IsDigit(s[0]) {
      NumbersEmpty(s[1..]);
      assert forall k :: 1 <= k < |s| ==> s[k] == s[1..][k - 1];
    }
  }

  /** Text without digits in front of the numbers is skipped. */
  lemma {:induction false} NumbersSkip(p: string, s: string)
    requires NoDigits(p)
    ensures Numbers(p + s) == Numbers(s)
    decreases |p|
  {
    if p != [] {
      assert (p + s)[0] == p[0] && (p + s)[1..] == p[1..] + s;
      assert NoDigits(p[1..]) by {
        forall k | 0 <= k < |p[1..]| ensures !IsDigit(p[1..][k]) { assert p[1..][k] == p[k + 1]; }
      }
      NumbersSkip(p[1..], s);
    } else {
      assert p + s == s;
    }
  }

  /** A rendered number that ends at a non-digit is found whole. */
  lemma NumbersOfRender(n: nat, rest: string)
    requires rest == [] || !IsDigit(rest[0])
    ensures Numbers(Render(n) + rest) == [n] + Numbers(rest)
  {
    var s := Render(n) + rest;
    DigitPrefixOfDigits(Render(n), rest);
    assert s[..|Render(n)|] == Render(n) && s[|Render(n)|..] == rest;
    ValueOfRender(n);
  }

  /** The first number after digit-free text is found whole. */
  lemma NumbersAfter(p: string, n: nat, rest: string)
    requires NoDigits(p)
    requires rest == [] || !IsDigit(rest[0])
    ensures Numbers(p + Render(n) + rest) == [n] + Numbers(rest)
  {
    Associative(p, Render(n), rest);
    NumbersSkip(p, Render(n) + rest);
    NumbersOfRender(n, rest);
  }

  /** A list of worry levels as the puzzle input writes it: " 79, 98". */
  function ItemsText(xs: seq<nat>): string {
    if xs == [] then ""
    else if |xs| == 1 then " " + Render(xs[0])
    else " " + Render(xs[0]) + "," + ItemsText(xs[1..])
  }

  lemma {:induction false} NumbersOfItems(xs: seq<nat>)
    ensures Numbers(ItemsText(xs)) == xs
    decreases |xs|
  {
    if xs != [] {
      var tail := if |xs| == 1 then "" else "," + ItemsText(xs[1..]);
      assert ItemsText(xs) == " " + Render(xs[0]) + tail;
      NumbersAfter(" ", xs[0], tail);
      if |xs| > 1 {
        NumbersSkip(",", ItemsText(xs[1..]));
        NumbersOfItems(xs[1..]);
      }
    }
  }

  /** `parseItems` reads back the worry levels of a starting-items line. */
  lemma ParseItemsRender(xs: seq<nat>)
    ensures ParseItems(ITEMS_PREFIX + ItemsText(xs)) == Ok(xs)
  {
    ItemsPrefixNoDigits();
    NumbersSkip(ITEMS_PREFIX, ItemsText(xs));
    NumbersOfItems(xs);
  }

  lemma ItemsPrefixNoDigits()
    ensures NoDigits(ITEMS_PREFIX)
  {
    forall k | 0 <= k < |ITEMS_PREFIX| ensures !IsDigit(ITEMS_PREFIX[k]) {
      assert ITEMS_PREFIX[k] in " Starting items:";
    }
  }

  /** `parseItems` rejects exactly the lines without the prefix. */
  lemma ParseItemsRejects(line: string)
    ensures ParseItems(line).Err? <==> !(ITEMS_PREFIX <= line)
  {
  }

  lemma OperandOfRender(n: nat)
    ensures Operand(Render(n)) == Some(Scalar(n))
  {
    ValueOfRender(n);
  }

  /** An accepted operand holds no space. */
  lemma OperandNoSpace(t: string)
    requires Operand(t).Some?
    ensures ' ' !in t
  {
    if t != "old" {
      assert forall k :: 0 <= k < |t| ==> IsDigit(t[k]);
    }
  }

  /** Two space-free words around a one-character word, separated by single
      spaces, split into those three words. */
  lemma SplitThree(lt: string, c: char, rt: string)
    requires ' ' !in lt && ' ' !in rt && c != ' '
    ensures Split(lt + " " + [c] + " " + rt, ' ') == [lt, [c], rt]
  {
    assert lt + " " + [c] + " " + rt == lt + [' '] + ([c] + [' '] + rt);
    SplitCons(lt, [c] + [' '] + rt, ' ');
    SplitCons([c], rt, ' ');
    SplitNoSep(rt, ' ');
  }

  /** `parseOperation` reads back "new = <lhs> <op> <rhs>" for operands it
      accepts. */
  lemma ParseOperationRender(op: OpCode, lt: string, rt: string, lhs: Expr, rhs: Expr)
    requires Operand(lt) == Some(lhs) && Operand(rt) == Some(rhs)
    ensures ParseOperation(OPERATION_PREFIX + lt + " " + [Symbol(op)] + " " + rt) == Ok(Operation(op, lhs, rhs))
  {
    var body := lt + " " + [Symbol(op)] + " " + rt;
    assert OPERATION_PREFIX + lt + " " + [Symbol(op)] + " " + rt == OPERATION_PREFIX + body;
    assert (OPERATION_PREFIX + body)[|OPERATION_PREFIX|..] == body;
    OperandNoSpace(lt);
    OperandNoSpace(rt);
    SplitThree(lt, Symbol(op), rt);
    FromCharSymbol(op);
  }

  /** `parseOperation` rejects a line without the prefix and one whose
      left operand is neither `old` nor a number. */
  lemma ParseOperationRejects(line: string, lt: string, c: char, rt: string)
    requires !(OPERATION_PREFIX <= line) || (line == OPERATION_PREFIX + lt + " " + [c] + " " + rt && Operand(lt).None? && ' ' !in lt)
    ensures ParseOperation(line) == Err(IllegalArgument)
  {
    if OPERATION_PREFIX <= line {
      var rest := [c] + [' '] + rt;
      assert line[|OPERATION_PREFIX|..] == lt + [' '] + rest;
      SplitCons(lt, rest, ' ');
    }
  }

  /** `parseTest` reads back the divisor of "Test: divisible by <n>". */
  lemma ParseTestRender(n: nat)
    ensures ParseTest(TEST_PREFIX + Render(n)) == Ok(n)
  {
    assert (TEST_PREFIX + Render(n))[|TEST_PREFIX|..] == Render(n);
    ValueOfRender(n);
  }

  /** `parseTest` rejects a divisor that is missing or followed by anything. */
  lemma ParseTestRejects(n: nat, extra: string)
    requires extra != [] && !IsDigit(extra[0])
    ensures ParseTest(TEST_PREFIX).Err?
    ensures ParseTest(TEST_PREFIX + Render(n) + extra).Err?
  {
    var line := TEST_PREFIX + Render(n) + extra;
    assert line[|TEST_PREFIX|..][|Render(n)|] == extra[0];
  }

  /** `parseRecipients` takes the first number of each line, and fails
      exactly when one of the lines has no digit. */
  lemma ParseRecipientsRender(p1: string, p2: string, a: nat, b: nat, rest1: string, rest2: string)
    requires NoDigits(p1) && NoDigits(p2)
    requires (rest1 == [] || !IsDigit(rest1[0])) && (rest2 == [] || !IsDigit(rest2[0]))
    ensures ParseRecipients(p1 + Render(a) + rest1, p2 + Render(b) + rest2) == Ok((a, b))
  {
    NumbersAfter(p1, a, rest1);
    NumbersAfter(p2, b, rest2);
  }

  lemma ParseRecipientsRejects(line1: string, line2: string)
    ensures ParseRecipients(line1, line2).Err? <==> NoDigits(line1) || NoDigits(line2)
  {
    NumbersEmpty(line1);
    NumbersEmpty(line2);
  }

  // ------------------------------------------------------------------------
  // A round, on values

  /** No monkey names itself as a recipient. Without such a monkey every
      turn ends (`TurnEnds`, `RoundEnds`); with one, a turn may end
      (`SelfThrowEnds`) or go on for ever (`SelfThrowLoops`). */
  predicate NoSelfThrows(ms: seq<MonkeyState>) {
    forall k :: 0 <= k < |ms| ==> ms[k].rules.ifDivisible != k && ms[k].rules.otherwise != k
  }

  predicate SameRules(a: seq<MonkeyState>, b: seq<MonkeyState>) {
    |a| == |b| && forall k :: 0 <= k < |a| ==> a[k].rules == b[k].rules
  }

  datatype StepResult =
    | Passed(monkeys: seq<MonkeyState>, thrown: Throw)
    | Failed(monkeys: seq<MonkeyState>, failure: Failure)

  /** One pass of the inner loop of `playRound`: monkey `i` throws its front
      item and the recipient catches it. */
  function Step(ms: seq<MonkeyState>, i: nat): (r: StepResult)
    requires i < |ms| && ms[i].items != []
    ensures SameRules(r.monkeys, ms)
    ensures r.Passed? ==> 0 <= r.thrown.recipient < |ms| && Inspect(ms[i].rules, ms[i].items[0]) == Ok(r.thrown)
    ensures r.Passed? ==> forall k :: 0 <= k < |ms| ==>
      && r.monkeys[k].items == (if k == i then ms[i].items[1..] else ms[k].items)
                               + (if k == r.thrown.recipient then [r.thrown.item] else [])
      && r.monkeys[k].inspected == ms[k].inspected + (if k == i then 1 else 0)
    ensures r.Passed? <==> Inspect(ms[i].rules, ms[i].items[0]).Ok? && 0 <= Inspect(ms[i].rules, ms[i].items[0]).value.recipient < |ms|
    ensures r.Failed? ==> r.monkeys == ms[i := ms[i].(items := ms[i].items[1..], inspected := ms[i].inspected + 1)]
    ensures r.Failed? && Inspect(ms[i].rules, ms[i].items[0]).Err? ==> r.failure == Inspect(ms[i].rules, ms[i].items[0]).error
    ensures r.Failed? && Inspect(ms[i].rules, ms[i].items[0]).Ok? ==> r.failure == IndexOutOfBounds
  {
    var m := ms[i];
    var thrower := ms[i := m.(items := m.items[1..], inspected := m.inspected + 1)];
    match Inspect(m.rules, m.items[0])
    case Err(f) => Failed(thrower, f)
    case Ok(t) =>
      if 0 <= t.recipient < |ms| then Passed(Moved(ms, i, t), t)
      else Failed(thrower, IndexOutOfBounds)
  }

  /** The monkeys once monkey `i` has inspected its front item and thrown it
      as `t`. */
  function Moved(ms: seq<MonkeyState>, i: nat, t: Throw): seq<MonkeyState>
    requires i < |ms| && ms[i].items != [] && 0 <= t.recipient < |ms|
  {
    var m := ms[i];
    var thrower := ms[i := m.(items := m.items[1..], inspected := m.inspected + 1)];
    var catcher := thrower[t.recipient];
    thrower[t.recipient := catcher.(items := catcher.items + [t.item])]
  }

  datatype TurnResult = TurnResult(monkeys: seq<MonkeyState>, thrown: seq<Throw>, failure: Option<Failure>)

  /** Monkey `i`'s turn: it throws until its queue is empty. A monkey that
      throws to itself refills its own queue, so a turn need not end: the
      result is `None` when the turn has not ended after `fuel` throws. A
      turn that ends without an exception leaves the queue empty, and
      throws no more than `fuel` items. */
  function Turn(ms: seq<MonkeyState>, i: nat, fuel: nat): (r: Option<TurnResult>)
    requires i < |ms|
    ensures r.Some? ==> SameRules(r.value.monkeys, ms) && |r.value.thrown| <= fuel
    ensures r.Some? && r.value.failure.None? ==> r.value.monkeys[i].items == []
    decreases fuel
  {
    if ms[i].items == [] then Some(TurnResult(ms, [], None))
    else if fuel == 0 then None
    else
      match Step(ms, i)
      case Failed(after, f) => Some(TurnResult(after, [], Some(f)))
      case Passed(after, t) =>
        match Turn(after, i, fuel - 1)
        case None => None
        case Some(rest) => Some(TurnResult(rest.monkeys, [t] + rest.thrown, rest.failure))
  }

  datatype RoundResult = RoundResult(monkeys: seq<MonkeyState>, turns: seq<seq<Throw>>, failure: Option<Failure>)

  /** The turns of monkeys `i`, `i + 1`, ..., in order, each of at most
      `fuel` throws; the throws of each turn are collected in `turns`. When
      nothing is raised there is one turn for each of those monkeys; an
      exception ends the round with the turn that raised it. */
  function Turns(ms: seq<MonkeyState>, i: nat, fuel: nat): (r: Option<RoundResult>)
    requires i <= |ms|
    ensures r.Some? ==> SameRules(r.value.monkeys, ms) && |r.value.turns| <= |ms| - i
    ensures r.Some? && r.value.failure.None? ==> |r.value.turns| == |ms| - i
    decreases |ms| - i
  {
    if i == |ms| then Some(RoundResult(ms, [], None))
    else
      match Turn(ms, i, fuel)
      case None => None
      case Some(t) =>
        if t.failure.Some? then Some(RoundResult(t.monkeys, [t.thrown], t.failure))
        else
          match Turns(t.monkeys, i + 1, fuel)
          case None => None
          case Some(rest) => Some(RoundResult(rest.monkeys, [t.thrown] + rest.turns, rest.failure))
  }

  /** `playRound`, each turn limited to `fuel` throws. */
  function Round(ms: seq<MonkeyState>, fuel: nat): (r: Option<RoundResult>)
    ensures r.Some? ==> SameRules(r.value.monkeys, ms)
    ensures r.Some? && r.value.failure.None? ==> |r.value.turns| == |ms|
  {
    Turns(ms, 0, fuel)
  }

  /** The turn of monkey `i` from `ms` ends within `fuel` throws, with the
      monkeys and the exception of `goal`. */
  predicate TurnReaches(ms: seq<MonkeyState>, i: nat, fuel: nat, goal: TurnResult)
    requires i < |ms|
  {
    Turn(ms, i, fuel).Some? && Turn(ms, i, fuel).value.monkeys == goal.monkeys && Turn(ms, i, fuel).value.failure == goal.failure
  }

  /** A turn that ends, after its first throw: one throw fewer remains. */
  lemma TurnUnfold(ms: seq<MonkeyState>, i: nat, fuel: nat, goal: TurnResult)
    requires i < |ms| && TurnReaches(ms, i, fuel, goal)
    ensures ms[i].items == [] ==> goal.monkeys == ms && goal.failure == None
    ensures ms[i].items != [] && Step(ms, i).Failed? ==>
      goal.monkeys == Step(ms, i).monkeys && goal.failure == Some(Step(ms, i).failure)
    ensures ms[i].items != [] && Step(ms, i).Passed? ==>
      && TurnReaches(Step(ms, i).monkeys, i, fuel, goal)
      && |Turn(Step(ms, i).monkeys, i, fuel).value.thrown| < |Turn(ms, i, fuel).value.thrown|
  {
    if ms[i].items != [] && Step(ms, i).Passed? {
      TurnFuel(Step(ms, i).monkeys, i, fuel - 1, fuel);
    }
  }

  /** A round's remaining turns that have ended, after the next one. */
  lemma TurnsUnfold(ms: seq<MonkeyState>, i: nat, fuel: nat)
    requires i < |ms| && Turns(ms, i, fuel).Some?
    ensures Turn(ms, i, fuel).Some?
    ensures var r, t := Turns(ms, i, fuel).value, Turn(ms, i, fuel).value;
      && (t.failure.Some? ==> r.monkeys == t.monkeys && r.failure == t.failure)
      && (t.failure.None? ==>
            && Turns(t.monkeys, i + 1, fuel).Some?
            && r.monkeys == Turns(t.monkeys, i + 1, fuel).value.monkeys
            && r.turns == [t.thrown] + Turns(t.monkeys, i + 1, fuel).value.turns
            && r.failure == Turns(t.monkeys, i + 1, fuel).value.failure)
  {
  }

  /** More fuel changes nothing about a turn that has ended. */
  lemma {:induction false} TurnFuel(ms: seq<MonkeyState>, i: nat, f: nat, g: nat)
    requires i < |ms| && f <= g && Turn(ms, i, f).Some?
    ensures Turn(ms, i, g) == Turn(ms, i, f)
    decreases f
  {
    if ms[i].items != [] && Step(ms, i).Passed? {
      assert Turn(ms, i, g) == Turn(ms, i, f) by {
        var s := Step(ms, i);
        TurnRest(ms, i, f);
        TurnFuel(s.monkeys, i, f - 1, g - 1);
        TurnAfterThrow(ms, i, f);
        TurnAfterThrow(ms, i, g);
      }
    }
  }

  /** A turn that ends after a first throw that lands: the rest of the turn
      ends too. */
  lemma TurnRest(ms: seq<MonkeyState>, i: nat, fuel: nat)
    requires i < |ms| && ms[i].items != [] && Step(ms, i).Passed? && Turn(ms, i, fuel).Some?
    ensures fuel > 0 && Turn(Step(ms, i).monkeys, i, fuel - 1).Some?
  {
    assert fuel > 0;
    TurnAfterThrow(ms, i, fuel);
  }

  /** A turn that ends without an exception while the monkey holds items
      starts with a throw that lands. */
  lemma TurnFirstThrow(ms: seq<MonkeyState>, i: nat, fuel: nat)
    requires i < |ms| && ms[i].items != []
    requires Turn(ms, i, fuel).Some? && Turn(ms, i, fuel).value.failure.None?
    ensures fuel > 0 && Step(ms, i).Passed?
  {
  }

  /** A turn whose first throw lands: that throw, then the rest of the turn. */
  lemma TurnAfterThrow(ms: seq<MonkeyState>, i: nat, fuel: nat)
    requires i < |ms| && ms[i].items != [] && fuel > 0 && Step(ms, i).Passed?
    ensures var rest := Turn(Step(ms, i).monkeys, i, fuel - 1);
      Turn(ms, i, fuel) ==
        if rest.None? then None
        else Some(TurnResult(rest.value.monkeys, [Step(ms, i).thrown] + rest.value.thrown, rest.value.failure))
  {
  }

  /** Without self-throws a turn ends after at most as many throws as the
      monkey holds items, and it throws nothing to itself. */
  lemma {:induction false} TurnEnds(ms: seq<MonkeyState>, i: nat, fuel: nat)
    requires i < |ms| && NoSelfThrows(ms) && |ms[i].items| <= fuel
    ensures Turn(ms, i, fuel).Some? && Caught(Turn(ms, i, fuel).value.thrown, i) == []
    decreases |ms[i].items|
  {
    if ms[i].items != [] {
      var s := Step(ms, i);
      if s.Passed? {
        var t := s.thrown;
        assert t.recipient != i by {
          assert t.recipient == ms[i].rules.ifDivisible || t.recipient == ms[i].rules.otherwise;
        }
        TurnEnds(s.monkeys, i, fuel - 1);
        var rest := Turn(s.monkeys, i, fuel - 1).value;
        var thrown := [t] + rest.thrown;
        assert thrown[0] == t && thrown[1..] == rest.thrown;
      }
    }
  }

  /** A turn of monkey 0 that throws an item to itself and ends: with
      `new = old + 3`, the test `divisible by 2` and recipients 0 and 1, the
      item 4 becomes 2 and goes back to monkey 0, then becomes 1 and goes to
      monkey 1. */
  lemma SelfThrowEnds()
    ensures var rules := Rules(Operation(Add, Variable("old"), Scalar(3)), 2, 0, 1);
      var other := MonkeyState([], 0, Rules(Variable("old"), 1, 0, 0));
      Turn([MonkeyState([4], 0, rules), other], 0, 2) ==
        Some(TurnResult([MonkeyState([], 2, rules), other.(items := [1])], [Throw(2, 0), Throw(1, 1)], None))
  {
    var rules := Rules(Operation(Add, Variable("old"), Scalar(3)), 2, 0, 1);
    var other := MonkeyState([], 0, Rules(Variable("old"), 1, 0, 0));
    var ms := [MonkeyState([4], 0, rules), other];
    var ms1 := [MonkeyState([2], 1, rules), other];
    var ms2 := [MonkeyState([], 2, rules), other.(items := [1])];
    assert Step(ms, 0) == Passed(ms1, Throw(2, 0)) by {
      assert Evaluate(Variable("old"), map["old" := 4]) == Ok(Long(4));
      assert Inspect(rules, 4) == Ok(Throw(2, 0)) by {
        assert JavaDiv(7, 3) == 2 && JavaRem(2, 2) == 0;
      }
      assert ms[0].items[1..] == [];
      var thrower := ms[0 := MonkeyState([], 1, rules)];
      assert thrower[0].items + [2] == [2];
      assert Moved(ms, 0, Throw(2, 0)) == thrower[0 := MonkeyState([2], 1, rules)];
      assert Moved(ms, 0, Throw(2, 0)) == ms1;
    }
    assert Step(ms1, 0) == Passed(ms2, Throw(1, 1)) by {
      assert Evaluate(Variable("old"), map["old" := 2]) == Ok(Long(2));
      assert Inspect(rules, 2) == Ok(Throw(1, 1)) by {
        assert JavaDiv(5, 3) == 1 && JavaRem(1, 2) == 1;
      }
      assert ms1[0].items[1..] == [];
      var thrower1 := ms1[0 := MonkeyState([], 2, rules)];
      assert thrower1[1].items + [1] == [1];
      assert Moved(ms1, 0, Throw(1, 1)) == thrower1[1 := other.(items := [1])];
      assert Moved(ms1, 0, Throw(1, 1)) == ms2;
    }
    assert Turn(ms2, 0, 0) == Some(TurnResult(ms2, [], None));
    assert [Throw(1, 1)] + [] == [Throw(1, 1)];
    assert Turn(ms1, 0, 1) == Some(TurnResult(ms2, [Throw(1, 1)], None));
    assert [Throw(2, 0)] + [Throw(1, 1)] == [Throw(2, 0), Throw(1, 1)];
  }

  /** The rules of a monkey that throws to itself for ever: the item 1
      becomes 3, then 1 again, and 1 is divisible by 1. */
  function LoopRules(): Rules {
    Rules(Operation(Multiply, Variable("old"), Scalar(3)), 1, 0, 0)
  }

  /** A turn that never ends: however much fuel it is given, the lone
      monkey with `LoopRules` and the item 1 has not finished. */
  lemma {:induction false} SelfThrowLoops(inspected: int, fuel: nat)
    ensures Turn([MonkeyState([1], inspected, LoopRules())], 0, fuel).None?
    decreases fuel
  {
    var ms := [MonkeyState([1], inspected, LoopRules())];
    if fuel > 0 {
      assert Evaluate(Variable("old"), map["old" := 1]) == Ok(Long(1));
      assert Inspect(LoopRules(), 1) == Ok(Throw(1, 0)) by {
        assert JavaDiv(3, 3) == 1 && JavaRem(1, 1) == 0;
      }
      assert ms[0].items[1..] == [];
      var thrower := ms[0 := MonkeyState([], inspected + 1, LoopRules())];
      assert thrower[0].items + [1] == [1];
      assert Moved(ms, 0, Throw(1, 0)) == thrower[0 := MonkeyState([1], inspected + 1, LoopRules())];
      assert Moved(ms, 0, Throw(1, 0)) == [MonkeyState([1], inspected + 1, LoopRules())];
      assert Step(ms, 0) == Passed([MonkeyState([1], inspected + 1, LoopRules())], Throw(1, 0));
      SelfThrowLoops(inspected + 1, fuel - 1);
    }
  }

  /** The items thrown to monkey `j`, in the order they were thrown. */
  function Caught(ts: seq<Throw>, j: int): (r: seq<int>)
    ensures |r| <= |ts|
  {
    if ts == [] then []
    else (if ts[0].recipient == j then [ts[0].item] else []) + Caught(ts[1..], j)
  }

  /** The items thrown to monkey `j` over several turns, in order. */
  function CaughtAll(turns: seq<seq<Throw>>, j: int): seq<int> {
    if turns == [] then [] else Caught(turns[0], j) + CaughtAll(turns[1..], j)
  }

  lemma {:induction false} CaughtAllAppend(a: seq<seq<Throw>>, b: seq<seq<Throw>>, j: int)
    ensures CaughtAll(a + b, j) == CaughtAll(a, j) + CaughtAll(b, j)
  {
    if a == [] {
      assert a + b == b;
    } else {
      assert (a + b)[1..] == a[1..] + b;
      CaughtAllAppend(a[1..], b, j);
    }
  }

  /** What a completed turn of monkey `i` did: it threw each of its items
      and each item it threw to itself, once, and inspected as many. */
  predicate TurnDone(ms: seq<MonkeyState>, i: nat, t: TurnResult)
    requires i < |ms|
  {
    && |t.monkeys| == |ms|
    && t.monkeys[i].items == []
    && t.monkeys[i].inspected == ms[i].inspected + |t.thrown|
    && |t.thrown| == |ms[i].items| + |Caught(t.thrown, i)|
    && forall k :: 0 <= k < |ms| && k != i ==> Appended(ms[k], t.monkeys[k], t.thrown, k)
  }

  /** Monkey `k` (`m0` before, `m` after) only caught what `thrown` sent it. */
  predicate Appended(m0: MonkeyState, m: MonkeyState, thrown: seq<Throw>, k: nat) {
    m.items == m0.items + Caught(thrown, k) && m.inspected == m0.inspected
  }

  /** A turn that ends without an exception inspects every item the monkey
      holds and every item it throws to itself, once each, leaves its queue
      empty, and appends each item thrown elsewhere to its recipient's queue
      in the order of the throws. */
  lemma {:induction false} TurnEmptiesQueue(ms: seq<MonkeyState>, i: nat, fuel: nat)
    requires i < |ms|
    ensures var r := Turn(ms, i, fuel); r.Some? && r.value.failure.None? ==> TurnDone(ms, i, r.value)
    decreases fuel
  {
    var r := Turn(ms, i, fuel);
    if r.Some? && r.value.failure.None? && ms[i].items != [] {
      TurnFirstThrow(ms, i, fuel);
      TurnAfterThrow(ms, i, fuel);
      var s := Step(ms, i);
      TurnEmptiesQueue(s.monkeys, i, fuel - 1);
      TurnDoneStep(ms, i, s, Turn(s.monkeys, i, fuel - 1).value);
    }
  }

  /** A completed turn after the first throw of monkey `i`'s turn. */
  lemma TurnDoneStep(ms: seq<MonkeyState>, i: nat, s: StepResult, rest: TurnResult)
    requires i < |ms| && ms[i].items != [] && s == Step(ms, i) && s.Passed?
    requires TurnDone(s.monkeys, i, rest)
    ensures TurnDone(ms, i, TurnResult(rest.monkeys, [s.thrown] + rest.thrown, rest.failure))
  {
    TurnDoneCons(ms, s.monkeys, i, s.thrown, rest);
  }

  /** A completed turn with one more throw in front of it. */
  lemma TurnDoneCons(ms: seq<MonkeyState>, mid: seq<MonkeyState>, i: nat, t: Throw, rest: TurnResult)
    requires i < |ms| == |mid| && ms[i].items != []
    requires 0 <= t.recipient < |ms|
    requires forall k :: 0 <= k < |ms| ==>
      && mid[k].items == (if k == i then ms[i].items[1..] else ms[k].items)
                         + (if k == t.recipient then [t.item] else [])
      && mid[k].inspected == ms[k].inspected + (if k == i then 1 else 0)
    requires TurnDone(mid, i, rest)
    ensures TurnDone(ms, i, TurnResult(rest.monkeys, [t] + rest.thrown, rest.failure))
  {
    var thrown := [t] + rest.thrown;
    assert thrown[0] == t && thrown[1..] == rest.thrown;
    assert Caught(thrown, i) == (if t.recipient == i then [t.item] else []) + Caught(rest.thrown, i);
    assert |mid[i].items| == |ms[i].items| - 1 + (if t.recipient == i then 1 else 0);
    forall k | 0 <= k < |ms| && k != i
      ensures Appended(ms[k], rest.monkeys[k], thrown, k)
    {
      assert Appended(mid[k], rest.monkeys[k], rest.thrown, k);
      assert Caught(thrown, k) == (if t.recipient == k then [t.item] else []) + Caught(rest.thrown, k);
    }
  }

  /** Bookkeeping half-way through a round of the monkeys `ms0`, once the
      turns `done` are over: a monkey that has had its turn holds exactly
      what the later turns threw to it; one still waiting holds its own items
      followed by everything thrown to it so far. */
  predicate Midway(ms0: seq<MonkeyState>, ms: seq<MonkeyState>, done: seq<seq<Throw>>)
    requires |ms| == |ms0| && |done| <= |ms|
  {
    forall j :: 0 <= j < |ms| ==> Tracked(ms0, ms, done, j)
  }

  predicate Tracked(ms0: seq<MonkeyState>, ms: seq<MonkeyState>, done: seq<seq<Throw>>, j: nat)
    requires |ms| == |ms0| && |done| <= |ms| && j < |ms|
  {
    if j < |done| then Settled(ms0[j], ms[j], done, j) else Waiting(ms0[j], ms[j], done, j)
  }

  /** Monkey `j` (`m0` at the start of the round, `m` now) has had its turn. */
  predicate Settled(m0: MonkeyState, m: MonkeyState, done: seq<seq<Throw>>, j: nat)
    requires j < |done|
  {
    && m.items == CaughtAll(done[j + 1..], j)
    && m.inspected == m0.inspected + |m0.items| + |CaughtAll(done[..j + 1], j)|
  }

  /** Monkey `j` is still waiting for its turn. */
  predicate Waiting(m0: MonkeyState, m: MonkeyState, done: seq<seq<Throw>>, j: int) {
    m.items == m0.items + CaughtAll(done, j) && m.inspected == m0.inspected
  }

  lemma CaughtAllLast(done: seq<seq<Throw>>, thrown: seq<Throw>, j: int)
    ensures CaughtAll(done + [thrown], j) == CaughtAll(done, j) + Caught(thrown, j)
  {
    CaughtAllAppend(done, [thrown], j);
    assert CaughtAll([thrown], j) == Caught(thrown, j) + CaughtAll([], j);
  }

  lemma StaysSettled(m0: MonkeyState, m: MonkeyState, m': MonkeyState, done: seq<seq<Throw>>, thrown: seq<Throw>, j: nat)
    requires j < |done| && Settled(m0, m, done, j)
    requires m'.items == m.items + Caught(thrown, j) && m'.inspected == m.inspected
    ensures Settled(m0, m', done + [thrown], j)
  {
    var d := done + [thrown];
    assert d[j + 1..] == done[j + 1..] + [thrown];
    CaughtAllLast(done[j + 1..], thrown, j);
    assert d[..j + 1] == done[..j + 1];
  }

  lemma BecomesSettled(m0: MonkeyState, m: MonkeyState, m': MonkeyState, done: seq<seq<Throw>>, thrown: seq<Throw>)
    requires Waiting(m0, m, done, |done|)
    requires m'.items == [] && m'.inspected == m.inspected + |thrown|
    requires |thrown| == |m.items| + |Caught(thrown, |done|)|
    ensures Settled(m0, m', done + [thrown], |done|)
  {
    var d := done + [thrown];
    assert d[|done| + 1..] == [];
    assert d[..|done| + 1] == d;
    CaughtAllLast(done, thrown, |done|);
  }

  lemma KeepsWaiting(m0: MonkeyState, m: MonkeyState, m': MonkeyState, done: seq<seq<Throw>>, thrown: seq<Throw>, j: int)
    requires Waiting(m0, m, done, j)
    requires m'.items == m.items + Caught(thrown, j) && m'.inspected == m.inspected
    ensures Waiting(m0, m', done + [thrown], j)
  {
    CaughtAllLast(done, thrown, j);
  }

  lemma MidwayStep(ms0: seq<MonkeyState>, ms: seq<MonkeyState>, done: seq<seq<Throw>>, t: TurnResult)
    requires |ms| == |ms0| && |done| < |ms|
    requires Midway(ms0, ms, done)
    requires TurnDone(ms, |done|, t)
    ensures |t.monkeys| == |ms0| && Midway(ms0, t.monkeys, done + [t.thrown])
  {
    var i := |done|;
    var d := done + [t.thrown];
    forall j | 0 <= j < |ms|
      ensures Tracked(ms0, t.monkeys, d, j)
    {
      assert Tracked(ms0, ms, done, j);
      if j < i {
        StaysSettled(ms0[j], ms[j], t.monkeys[j], done, t.thrown, j);
      } else if j == i {
        BecomesSettled(ms0[j], ms[j], t.monkeys[j], done, t.thrown);
      } else {
        KeepsWaiting(ms0[j], ms[j], t.monkeys[j], done, t.thrown, j);
      }
    }
  }

  /** The turns from monkey `|done|` on end in `last` with `all` the turns of
      the whole round: the bookkeeping then holds of `last` and `all`. */
  lemma {:induction false} TurnsBookkeeping(ms0: seq<MonkeyState>, ms: seq<MonkeyState>, done: seq<seq<Throw>>, fuel: nat,
                                            last: seq<MonkeyState>, all: seq<seq<Throw>>)
    requires |ms| == |ms0| && |done| <= |ms|
    requires Midway(ms0, ms, done)
    requires var r := Turns(ms, |done|, fuel);
      r.Some? && r.value.failure.None? && r.value.monkeys == last && done + r.value.turns == all
    ensures |last| == |ms0| && |all| == |ms0| && Midway(ms0, last, all)
    decreases |ms| - |done|
  {
    var i := |done|;
    var r := Turns(ms, i, fuel).value;
    if i < |ms| {
      TurnsUnfold(ms, i, fuel);
      var t := Turn(ms, i, fuel).value;
      var d := done + [t.thrown];
      var rest := Turns(t.monkeys, i + 1, fuel).value;
      assert |t.monkeys| == |ms0| && Midway(ms0, t.monkeys, d) by {
        TurnEmptiesQueue(ms, i, fuel);
        MidwayStep(ms0, ms, done, t);
      }
      assert d + rest.turns == all by {
        Associative(done, [t.thrown], rest.turns);
      }
      TurnsBookkeeping(ms0, t.monkeys, d, fuel, last, all);
    } else {
      assert all == done;
    }
  }

  lemma Associative<T>(a: seq<T>, b: seq<T>, c: seq<T>)
    ensures a + (b + c) == (a + b) + c
  {
  }

  /** After a round that ends without an exception, each monkey holds
      exactly the items thrown to it by the monkeys after it (so they wait
      for the next round), and it has inspected its own items together with
      every item that it and the monkeys before it threw to it in this round
      (so those were handled in the same round). The last monkey ends the
      round with an empty queue. */
  lemma RoundBookkeeping(ms: seq<MonkeyState>, fuel: nat)
    ensures var r := Round(ms, fuel);
      r.Some? && r.value.failure.None? ==>
        && |r.value.monkeys| == |ms| && |r.value.turns| == |ms|
        && (forall j :: 0 <= j < |ms| ==> r.value.monkeys[j].items == CaughtAll(r.value.turns[j + 1..], j))
        && (forall j :: 0 <= j < |ms| ==>
              r.value.monkeys[j].inspected == ms[j].inspected + |ms[j].items| + |CaughtAll(r.value.turns[..j + 1], j)|)
  {
    var r := Round(ms, fuel);
    assert Midway(ms, ms, []) by {
      forall j | 0 <= j < |ms|
        ensures Tracked(ms, ms, [], j)
      {
        assert ms[j].items + CaughtAll([], j) == ms[j].items;
      }
    }
    if r.Some? && r.value.failure.None? {
      var v := r.value;
      assert [] + v.turns == v.turns;
      TurnsBookkeeping(ms, ms, [], fuel, v.monkeys, v.turns);
      forall j | 0 <= j < |ms|
        ensures v.monkeys[j].items == CaughtAll(v.turns[j + 1..], j)
        ensures v.monkeys[j].inspected == ms[j].inspected + |ms[j].items| + |CaughtAll(v.turns[..j + 1], j)|
      {
        assert Tracked(ms, v.monkeys, v.turns, j);
      }
    }
  }

  /** The number of items the monkeys hold between them. */
  function TotalItems(ms: seq<MonkeyState>): nat {
    if ms == [] then 0 else TotalItems(ms[..|ms| - 1]) + |ms[|ms| - 1].items|
  }

  lemma {:induction false} TotalUpdate(ms: seq<MonkeyState>, k: nat, m: MonkeyState)
    requires k < |ms|
    ensures TotalItems(ms[k := m]) == TotalItems(ms) - |ms[k].items| + |m.items|
  {
    var n := |ms| - 1;
    if k < n {
      assert ms[k := m][..n] == ms[..n][k := m];
      TotalUpdate(ms[..n], k, m);
    } else {
      assert ms[k := m][..n] == ms[..n];
    }
  }

  /** No monkey holds more items than all of them together. */
  lemma {:induction false} ItemsWithinTotal(ms: seq<MonkeyState>, k: nat)
    requires k < |ms|
    ensures |ms[k].items| <= TotalItems(ms)
  {
    var n := |ms| - 1;
    if k < n {
      ItemsWithinTotal(ms[..n], k);
    }
  }

  /** A throw moves an item from one queue to another. */
  lemma StepConserves(ms: seq<MonkeyState>, i: nat)
    requires i < |ms| && ms[i].items != []
    ensures Step(ms, i).Passed? ==> TotalItems(Step(ms, i).monkeys) == TotalItems(ms)
  {
    var s := Step(ms, i);
    if s.Passed? {
      MoveConserves(ms, i, s.thrown);
    }
  }

  lemma MoveConserves(ms: seq<MonkeyState>, i: nat, t: Throw)
    requires i < |ms| && ms[i].items != [] && 0 <= t.recipient < |ms|
    ensures TotalItems(Moved(ms, i, t)) == TotalItems(ms)
  {
    var m := ms[i];
    var thrower := ms[i := m.(items := m.items[1..], inspected := m.inspected + 1)];
    var catcher := thrower[t.recipient];
    var caught := catcher.(items := catcher.items + [t.item]);
    assert Moved(ms, i, t) == thrower[t.recipient := caught];
    TotalUpdate(ms, i, thrower[i]);
    assert TotalItems(thrower) + 1 == TotalItems(ms);
    TotalUpdate(thrower, t.recipient, caught);
  }

  lemma {:induction false} TurnConserves(ms: seq<MonkeyState>, i: nat, fuel: nat)
    requires i < |ms|
    ensures var r := Turn(ms, i, fuel); r.Some? && r.value.failure.None? ==> TotalItems(r.value.monkeys) == TotalItems(ms)
    decreases fuel
  {
    if ms[i].items != [] && fuel > 0 {
      StepConserves(ms, i);
      var s := Step(ms, i);
      if s.Passed? {
        TurnConserves(s.monkeys, i, fuel - 1);
      }
    }
  }

  lemma {:induction false} TurnsConserve(ms: seq<MonkeyState>, i: nat, fuel: nat)
    requires i <= |ms|
    ensures var r := Turns(ms, i, fuel); r.Some? && r.value.failure.None? ==> TotalItems(r.value.monkeys) == TotalItems(ms)
    decreases |ms| - i
  {
    if i < |ms| {
      TurnConserves(ms, i, fuel);
      var t := Turn(ms, i, fuel);
      if t.Some? && t.value.failure.None? {
        TurnsConserve(t.value.monkeys, i + 1, fuel);
      }
    }
  }

  /** A round that ends without an exception neither loses nor creates
      items. */
  lemma RoundConserves(ms: seq<MonkeyState>, fuel: nat)
    ensures var r := Round(ms, fuel); r.Some? && r.value.failure.None? ==> TotalItems(r.value.monkeys) == TotalItems(ms)
  {
    TurnsConserve(ms, 0, fuel);
  }

  lemma {:induction false} TurnsEnd(ms: seq<MonkeyState>, i: nat, fuel: nat)
    requires i <= |ms| && NoSelfThrows(ms) && TotalItems(ms) <= fuel
    ensures Turns(ms, i, fuel).Some?
    decreases |ms| - i
  {
    if i < |ms| {
      ItemsWithinTotal(ms, i);
      TurnEnds(ms, i, fuel);
      TurnConserves(ms, i, fuel);
      var t := Turn(ms, i, fuel).value;
      if t.failure.None? {
        TurnsEnd(t.monkeys, i + 1, fuel);
      }
    }
  }

  /** Without self-throws every round ends: no turn throws more items than
      the monkeys hold between them. */
  lemma RoundEnds(ms: seq<MonkeyState>)
    requires NoSelfThrows(ms)
    ensures Round(ms, TotalItems(ms)).Some?
  {
    TurnsEnd(ms, 0, TotalItems(ms));
  }

  // ------------------------------------------------------------------------
  // Monkey business

  predicate Descending(s: seq<int>) {
    forall a, b :: 0 <= a < b < |s| ==> s[a] >= s[b]
  }

  function Insert(x: int, s: seq<int>): (r: seq<int>)
    requires Descending(s)
    ensures Descending(r) && multiset(r) == multiset{x} + multiset(s)
    ensures |r| == |s| + 1 && (r[0] == x || (s != [] && r[0] == s[0]))
  {
    if s == [] || x >= s[0] then
      ConsDescending(x, s);
      [x] + s
    else
      var rest := Insert(x, s[1..]);
      assert multiset(s) == multiset{s[0]} + multiset(s[1..]) by {
        assert s == [s[0]] + s[1..];
      }
      ConsDescending(s[0], rest);
      [s[0]] + rest
  }

  /** A value no smaller than the head of a descending list can go first. */
  lemma ConsDescending(x: int, s: seq<int>)
    requires Descending(s) && (s == [] || x >= s[0])
    ensures Descending([x] + s)
  {
    var r := [x] + s;
    forall a, b | 0 <= a < b < |r| ensures r[a] >= r[b] {
      assert r[b] == s[b - 1];
      if a > 0 {
        assert r[a] == s[a - 1];
      } else {
        assert s[0] >= s[b - 1];
      }
    }
  }

  /** `sorted` with the reversed comparator: largest first. */
  function SortDescending(s: seq<int>): (r: seq<int>)
    ensures Descending(r) && multiset(r) == multiset(s)
  {
    if s == [] then []
    else
      assert s == [s[0]] + s[1..];
      Insert(s[0], SortDescending(s[1..]))
  }

  /** `reduce(1L, (x, y) -> x * y)`. */
  function Product(s: seq<int>): int {
    if s == [] then 1 else Product(s[..|s| - 1]) * s[|s| - 1]
  }

  /** `getMonkeyBusiness` on the inspection counts. */
  function MonkeyBusiness(counts: seq<int>): int {
    var sorted := SortDescending(counts);
    Product(if |sorted| <= 2 then sorted else sorted[..2])
  }

  /** With no monkey the product is empty; with one it is that monkey's
      count. */
  lemma BusinessOfFew(counts: seq<int>)
    requires |counts| <= 1
    ensures |counts| == 0 ==> MonkeyBusiness(counts) == 1
    ensures |counts| == 1 ==> MonkeyBusiness(counts) == counts[0]
  {
    if |counts| == 1 {
      var sorted := SortDescending(counts);
      assert |sorted| == |multiset(sorted)| == 1;
      assert sorted[0] in multiset(counts);
      assert sorted == [counts[0]];
      assert Product(sorted) == Product([]) * counts[0] by {
        assert sorted[..0] == [];
      }
    }
  }

  /** The largest of some counts. */
  function Max(q: seq<int>): (m: int)
    requires q != []
    ensures m in q && forall k :: 0 <= k < |q| ==> q[k] <= m
  {
    if |q| == 1 then q[0]
    else
      var rest := Max(q[1..]);
      if q[0] >= rest then q[0] else rest
  }

  /** The counts without the first occurrence of `x`. */
  function RemoveOne(q: seq<int>, x: int): (r: seq<int>)
    requires x in q
    ensures multiset(r) == multiset(q) - multiset{x}
  {
    if q[0] == x then
      assert q == [q[0]] + q[1..];
      q[1..]
    else
      assert q == [q[0]] + q[1..];
      [q[0]] + RemoveOne(q[1..], x)
  }

  /** With two monkeys or more, monkey business is the product of the
      largest count and of the largest of the others. */
  lemma BusinessOfTopTwo(counts: seq<int>)
    requires |counts| >= 2
    ensures MonkeyBusiness(counts) == Max(counts) * Max(RemoveOne(counts, Max(counts)))
  {
    SortedProduct(counts);
    SortedFirst(counts);
    SortedSecond(counts);
  }

  lemma SortedProduct(counts: seq<int>)
    requires |counts| >= 2
    ensures MonkeyBusiness(counts) == SortDescending(counts)[0] * SortDescending(counts)[1]
  {
    ProductOfFirstTwo(SortDescending(counts));
  }

  lemma SortedFirst(counts: seq<int>)
    requires |counts| >= 1
    ensures Max(counts) == SortDescending(counts)[0]
  {
    var s := SortDescending(counts);
    MaxOfSame(counts, s);
    MaxOfDescending(s);
  }

  lemma SortedSecond(counts: seq<int>)
    requires |counts| >= 2
    ensures SortDescending(counts)[0] in counts
    ensures Max(RemoveOne(counts, SortDescending(counts)[0])) == SortDescending(counts)[1]
  {
    var s := SortDescending(counts);
    RestOfSame(counts, s);
    var others := RemoveOne(counts, s[0]);
    MaxOfSame(others, s[1..]);
    MaxOfDescending(s[1..]);
  }

  /** Removing the first element of a rearrangement of `a` from `a` leaves
      a rearrangement of the rest. */
  lemma RestOfSame(a: seq<int>, s: seq<int>)
    requires s != [] && multiset(a) == multiset(s)
    ensures s[0] in a && multiset(RemoveOne(a, s[0])) == multiset(s[1..])
  {
    assert s == [s[0]] + s[1..];
    assert s[0] in multiset(a);
  }

  lemma ProductOfFirstTwo(s: seq<int>)
    requires |s| >= 2
    ensures Product(if |s| <= 2 then s else s[..2]) == s[0] * s[1]
  {
    var q := if |s| <= 2 then s else s[..2];
    assert |q| == 2 && q[0] == s[0] && q[1] == s[1];
    assert Product(q) == Product(q[..1]) * q[1];
    assert q[..1][..0] == [];
    assert Product(q[..1]) == Product([]) * q[0];
  }

  /** The largest element depends only on the multiset of elements. */
  lemma MaxOfSame(a: seq<int>, b: seq<int>)
    requires a != [] && multiset(a) == multiset(b)
    ensures b != [] && Max(a) == Max(b)
  {
    assert a[0] in multiset(b);
    assert Max(a) in multiset(b) && Max(b) in multiset(a);
  }

  /** A descending sequence starts with its largest element. */
  lemma MaxOfDescending(s: seq<int>)
    requires s != [] && Descending(s)
    ensures Max(s) == s[0]
  {
  }

  // ------------------------------------------------------------------------
  // The engine

  /** `MonkeyShenanigansEngine`: the list of monkeys, each a separate
      object. */
  class Engine {
    var monkeys: seq<Monkey>

    constructor ()
      ensures monkeys == []
    {
      monkeys := [];
    }

    /** Each monkey is in the list once. */
    ghost predicate Valid()
      reads this
    {
      forall a, b :: 0 <= a < b < |monkeys| ==> monkeys[a] != monkeys[b]
    }

    function States(): (r: seq<MonkeyState>)
      reads this, monkeys
      ensures |r| == |monkeys|
      ensures forall k :: 0 <= k < |monkeys| ==> r[k] == monkeys[k].State()
    {
      seq(|monkeys|, k reads this, monkeys requires 0 <= k < |monkeys| => monkeys[k].State())
    }

    /** `addMonkey`: a monkey read from `src` joins the end of the list; if
        it cannot be read, the list stays as it was. */
    method AddMonkey(src: string) returns (r: Result<(), Failure>)
      requires Valid()
      modifies this
      ensures Valid()
      ensures ParseMonkey(src).Err? ==> r == Err(ParseMonkey(src).error) && monkeys == old(monkeys)
      ensures ParseMonkey(src).Ok? ==>
        && r.Ok? && |monkeys| == |old(monkeys)| + 1 && monkeys[..|old(monkeys)|] == old(monkeys)
        && fresh(monkeys[|old(monkeys)|]) && monkeys[|old(monkeys)|].State() == ParseMonkey(src).value
    {
      var m := Monkey.FromString(src);
      if m.Err? {
        return Err(m.error);
      }
      monkeys := monkeys + [m.value];
      r := Ok(());
    }

    /** One pass of the inner loop of `playRound`: monkey `i` throws its
        front item and the recipient catches it. */
    method ThrowOnce(i: nat) returns (failure: Option<Failure>)
      requires Valid() && i < |monkeys| && monkeys[i].items != []
      modifies monkeys
      ensures States() == Step(old(States()), i).monkeys
      ensures Step(old(States()), i).Failed? ==> failure == Some(Step(old(States()), i).failure)
      ensures Step(old(States()), i).Passed? ==> failure == None
    {
      ghost var before := States();
      ghost var step := Step(before, i);
      var monkey := monkeys[i];
      var thrown := monkey.ThrowItem();
      if thrown.Err? {
        assert States() == step.monkeys;
        return Some(thrown.error);
      }
      var t := thrown.value.value;
      if !(0 <= t.recipient < |monkeys|) {
        assert States() == step.monkeys;
        return Some(IndexOutOfBounds);
      }
      monkeys[t.recipient].CatchItem(t.item);
      assert step.Passed? && step.thrown == t;
      assert States() == step.monkeys by {
        forall k | 0 <= k < |monkeys|
          ensures States()[k] == step.monkeys[k]
        {
        }
      }
      failure := None;
    }

    /** Monkey `i`'s turn: it throws until its queue is empty. A method must
        end, so the turn is required to end within `fuel` throws. */
    method TakeTurn(i: nat, ghost fuel: nat) returns (failure: Option<Failure>)
      requires Valid() && i < |monkeys| && Turn(States(), i, fuel).Some?
      modifies monkeys
      ensures States() == Turn(old(States()), i, fuel).value.monkeys
      ensures failure == Turn(old(States()), i, fuel).value.failure
    {
      ghost var goal := Turn(States(), i, fuel).value;
      ghost var cur := States();
      var monkey := monkeys[i];
      while monkey.HasItems()
        invariant cur == States() && TurnReaches(cur, i, fuel, goal)
        decreases |Turn(cur, i, fuel).value.thrown|
      {
        TurnUnfold(cur, i, fuel, goal);
        cur := Step(cur, i).monkeys;
        failure := ThrowOnce(i);
        if failure.Some? {
          return;
        }
      }
      TurnUnfold(cur, i, fuel, goal);
      failure := None;
    }

    /** `playRound`: each monkey in list order takes its turn, each turn
        required to end within `fuel` throws. */
    method PlayRound(ghost fuel: nat) returns (r: Result<(), Failure>)
      requires Valid() && Round(States(), fuel).Some?
      modifies monkeys
      ensures States() == Round(old(States()), fuel).value.monkeys
      ensures r.Err? <==> Round(old(States()), fuel).value.failure.Some?
      ensures r.Err? ==> r.error == Round(old(States()), fuel).value.failure.value
    {
      ghost var goal := Round(States(), fuel).value;
      ghost var cur := States();
      var i := 0;
      while i < |monkeys|
        invariant 0 <= i <= |monkeys| && cur == States()
        invariant Turns(cur, i, fuel).Some?
        invariant Turns(cur, i, fuel).value.monkeys == goal.monkeys
        invariant Turns(cur, i, fuel).value.failure == goal.failure
      {
        TurnsUnfold(cur, i, fuel);
        ghost var t := Turn(cur, i, fuel).value;
        var failure := TakeTurn(i, fuel);
        cur := t.monkeys;
        if failure.Some? {
          return Err(failure.value);
        }
        i := i + 1;
      }
      r := Ok(());
    }

    /** The inspection counters, in the order of the list. */
    function Counts(): (r: seq<int>)
      reads this, monkeys
      ensures |r| == |monkeys|
      ensures forall k :: 0 <= k < |monkeys| ==> r[k] == monkeys[k].itemsInspected
    {
      seq(|monkeys|, k reads this, monkeys requires 0 <= k < |monkeys| => monkeys[k].itemsInspected)
    }

    /** `getMonkeyBusiness`: the product of the two largest counters; 1 with
        no monkey, and the one counter with a single monkey. */
    function GetMonkeyBusiness(): (r: int)
      reads this, monkeys
      ensures |monkeys| == 0 ==> r == 1
      ensures |monkeys| == 1 ==> r == monkeys[0].itemsInspected
      ensures |monkeys| >= 2 ==> r == Max(Counts()) * Max(RemoveOne(Counts(), Max(Counts())))
    {
      var counts := Counts();
      if |counts| <= 1 then
        BusinessOfFew(counts);
        MonkeyBusiness(counts)
      else
        BusinessOfTopTwo(counts);
        MonkeyBusiness(counts)
    }
  }
}
