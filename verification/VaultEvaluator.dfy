/** The VAULT policy evaluator: the three-valued walk of a policy tree, and the decision that
    projects the clock forward hour by hour. */
module VaultEvaluator {
  import opened Options
  import opened VaultAst
  import VaultParser

  datatype Weekdays = Mon | Tue | Wed | Thu | Fri | Sat | Sun
  datatype PulseState = Normal | Caution | Tired | Exhausted | PulseUnknown
  datatype TetherState = Present | Absent | TetherUnknown

  datatype Context = Context(
    hour: int,
    weekday: Weekdays,
    dayOfMonth: int,
    secondsSinceBoot: int,
    pulse: PulseState,
    tether: TetherState,
    ssid: Option<string>,
    oracleScore: real,
    oracleKnown: bool)

  datatype Truth = False | True | Error

  datatype Decision = Deny | Allow | Defer(seconds: int)

  // ---- the walk ---------------------------------------------------------------------

  function WeekdayName(w: Weekdays): string {
    match w
    case Mon => "mon"
    case Tue => "tue"
    case Wed => "wed"
    case Thu => "thu"
    case Fri => "fri"
    case Sat => "sat"
    case Sun => "sun"
  }

  function PulseName(p: PulseState): string {
    match p
    case Normal => "normal"
    case Caution => "caution"
    case Tired => "tired"
    case Exhausted => "exhausted"
    case PulseUnknown => "unknown"
  }

  function TetherName(t: TetherState): string {
    match t
    case Present => "present"
    case Absent => "absent"
    case TetherUnknown => "unknown"
  }

  predicate IsNumeric(v: Variable) {
    v == Hour || v == DayOfMonth || v == SecondsSinceBoot || v == OracleScore
  }

  /** The value of a numeric variable, or None when its source module is down. */
  function NumericValue(v: Variable, c: Context): Option<real> {
    match v
    case Hour => Some(c.hour as real)
    case DayOfMonth => Some(c.dayOfMonth as real)
    case SecondsSinceBoot => Some(c.secondsSinceBoot as real)
    case OracleScore => if c.oracleKnown then Some(c.oracleScore) else None
    case _ => None
  }

  /** The word of an enum or string variable, or None when there is none. */
  function WordValue(v: Variable, c: Context): Option<string> {
    match v
    case Weekday => Some(WeekdayName(c.weekday))
    case PulseMode => Some(PulseName(c.pulse))
    case Tether => Some(TetherName(c.tether))
    case NetworkSsid => c.ssid
    case _ => None
  }

  function Truly(b: bool): Truth {
    if b then True else False
  }

  function EvalNumeric(op: Operator, lhs: real, v: Value): Truth {
    if op == Between then
      if v.Range? then Truly(v.lo <= lhs <= v.hi) else Error
    else if op == In then Error
    else if !v.Number? then Error
    else
      match op
      case Eq => Truly(lhs == v.number)
      case Ne => Truly(lhs != v.number)
      case Lt => Truly(lhs < v.number)
      case Le => Truly(lhs <= v.number)
      case Gt => Truly(lhs > v.number)
      case Ge => Truly(lhs >= v.number)
      case _ => Error
  }

  function EvalWord(op: Operator, lhs: Option<string>, v: Value): Truth {
    if lhs == None then Error
    else if op == Eq || op == Ne then
      if !v.Word? && !v.Quoted? then Error
      else Truly((lhs.value == v.word) == (op == Eq))
    else if op == In then
      if v.List? then Truly(lhs.value in v.list) else Error
    else Error
  }

  function EvalPredicate(e: Expr, c: Context): Truth
    requires e.Pred?
  {
    if e.variable == UnknownVariable then Error
    else if IsNumeric(e.variable) then
      match NumericValue(e.variable, c)
      case None => Error
      case Some(lhs) => EvalNumeric(e.op, lhs, e.value)
    else EvalWord(e.op, WordValue(e.variable, c), e.value)
  }

  function Eval(e: Expr, c: Context): Truth {
    match e
    case Pred(_, _, _) => EvalPredicate(e, c)
    case Not(arg) =>
      var r := Eval(arg, c);
      if r == Error then Error else Truly(r != True)
    case And(left, right) =>
      var l, r := Eval(left, c), Eval(right, c);
      if l == Error || r == Error then Error else Truly(l == True && r == True)
    case Or(left, right) =>
      var l, r := Eval(left, c), Eval(right, c);
      if l == Error || r == Error then Error else Truly(l == True || r == True)
  }

  /** The loop of eval_word over the items of a list. */
  method IsListed(word: string, items: seq<string>) returns (found: bool)
    ensures found <==> word in items
  {
    for i := 0 to |items|
      invariant word !in items[..i]
    {
      if items[i] == word {
        return true;
      }
    }
    assert items[..|items|] == items;
    found := false;
  }

  // ---- ERROR is a static property of the policy -------------------------------------

  ghost function Leaves(e: Expr): set<Expr>
    ensures forall leaf :: leaf in Leaves(e) ==> leaf.Pred?
  {
    match e
    case Pred(_, _, _) => {e}
    case Not(arg) => Leaves(arg)
    case And(left, right) => Leaves(left) + Leaves(right)
    case Or(left, right) => Leaves(left) + Leaves(right)
  }

  /** A leaf whose operator and value fit its variable, and whose variable has a value. Only
      whether the oracle is running and whether there is an SSID matters, not the clock. */
  predicate WellTyped(leaf: Expr, oracleKnown: bool, hasSsid: bool)
    requires leaf.Pred?
  {
    && (leaf.variable == OracleScore ==> oracleKnown)
    && (leaf.variable == NetworkSsid ==> hasSsid)
    && leaf.variable != UnknownVariable
    && match leaf.op
       case NoOperator => false
       case Between => IsNumeric(leaf.variable) && leaf.value.Range?
       case In => !IsNumeric(leaf.variable) && leaf.value.List?
       case Eq => if IsNumeric(leaf.variable) then leaf.value.Number? else leaf.value.Word? || leaf.value.Quoted?
       case Ne => if IsNumeric(leaf.variable) then leaf.value.Number? else leaf.value.Word? || leaf.value.Quoted?
       case _ => IsNumeric(leaf.variable) && leaf.value.Number?
  }

  /** A policy is ERROR exactly if one of its leaves is: no connective hides an error, and
      neither the clock nor any value but the presence of the oracle and the SSID decides it. */
  lemma {:induction false} ErrorIffLeafErrs(e: Expr, c: Context)
    ensures Eval(e, c) == Error
       <==> exists leaf :: leaf in Leaves(e) && !WellTyped(leaf, c.oracleKnown, c.ssid.Some?)
  {
    match e {
      case Pred(_, _, _) =>
        assert e in Leaves(e);
      case Not(arg) =>
        ErrorIffLeafErrs(arg, c);
      case And(left, right) =>
        ErrorIffLeafErrs(left, c);
        ErrorIffLeafErrs(right, c);
      case Or(left, right) =>
        ErrorIffLeafErrs(left, c);
        ErrorIffLeafErrs(right, c);
    }
  }

  lemma ErrorIgnoresTheClock(e: Expr, c: Context, c': Context)
    requires c.oracleKnown == c'.oracleKnown && c.ssid.Some? == c'.ssid.Some?
    ensures Eval(e, c) == Error <==> Eval(e, c') == Error
  {
    ErrorIffLeafErrs(e, c);
    ErrorIffLeafErrs(e, c');
  }

  // ---- the walk is classical logic behind a type check ------------------------------

  ghost predicate AllWellTyped(e: Expr, c: Context) {
    forall leaf :: leaf in Leaves(e) ==> WellTyped(leaf, c.oracleKnown, c.ssid.Some?)
  }

  /** The number of a numeric variable, where it has one. */
  ghost function NumberOf(v: Variable, c: Context): real {
    match v
    case Hour => c.hour as real
    case DayOfMonth => c.dayOfMonth as real
    case SecondsSinceBoot => c.secondsSinceBoot as real
    case _ => c.oracleScore
  }

  /** What an enum or string variable says, word by word. */
  ghost predicate Says(v: Variable, c: Context, w: string) {
    match v
    case Weekday =>
      || (c.weekday == Mon && w == "mon") || (c.weekday == Tue && w == "tue") || (c.weekday == Wed && w == "wed")
      || (c.weekday == Thu && w == "thu") || (c.weekday == Fri && w == "fri") || (c.weekday == Sat && w == "sat")
      || (c.weekday == Sun && w == "sun")
    case PulseMode =>
      || (c.pulse == Normal && w == "normal") || (c.pulse == Caution && w == "caution")
      || (c.pulse == Tired && w == "tired") || (c.pulse == Exhausted && w == "exhausted")
      || (c.pulse == PulseUnknown && w == "unknown")
    case Tether =>
      || (c.tether == Present && w == "present") || (c.tether == Absent && w == "absent")
      || (c.tether == TetherUnknown && w == "unknown")
    case _ => c.ssid == Some(w)
  }

  lemma SaysItsWord(v: Variable, c: Context, w: string)
    requires v in {Weekday, PulseMode, Tether} || (v == NetworkSsid && c.ssid.Some?)
    ensures Says(v, c, w) <==> WordValue(v, c) == Some(w)
  {
  }

  /** The two-valued meaning of a policy, in ordinary logic. */
  ghost predicate Holds(e: Expr, c: Context) {
    match e
    case Pred(v, Between, Range(lo, hi)) => lo <= NumberOf(v, c) && NumberOf(v, c) <= hi
    case Pred(v, Lt, Number(x)) => NumberOf(v, c) < x
    case Pred(v, Gt, Number(x)) => x < NumberOf(v, c)
    case Pred(v, Le, Number(x)) => !(x < NumberOf(v, c))
    case Pred(v, Ge, Number(x)) => !(NumberOf(v, c) < x)
    case Pred(v, Eq, Number(x)) => NumberOf(v, c) == x
    case Pred(v, Ne, Number(x)) => NumberOf(v, c) != x
    case Pred(v, In, List(items)) => exists i :: 0 <= i < |items| && Says(v, c, items[i])
    case Pred(v, Eq, Word(w)) => Says(v, c, w)
    case Pred(v, Eq, Quoted(w)) => Says(v, c, w)
    case Pred(v, Ne, Word(w)) => !Says(v, c, w)
    case Pred(v, Ne, Quoted(w)) => !Says(v, c, w)
    case Pred(_, _, _) => false
    case Not(arg) => !Holds(arg, c)
    case And(left, right) => Holds(left, c) && Holds(right, c)
    case Or(left, right) => Holds(left, c) || Holds(right, c)
  }

  lemma WordIs(leaf: Expr, c: Context)
    requires leaf.Pred? && !IsNumeric(leaf.variable) && WellTyped(leaf, c.oracleKnown, c.ssid.Some?)
    ensures Eval(leaf, c) == Truly(Holds(leaf, c))
  {
    if leaf.op == In {
      forall i | 0 <= i < |leaf.value.list|
        ensures Says(leaf.variable, c, leaf.value.list[i]) <==> WordValue(leaf.variable, c) == Some(leaf.value.list[i])
      {
        SaysItsWord(leaf.variable, c, leaf.value.list[i]);
      }
    } else {
      SaysItsWord(leaf.variable, c, leaf.value.word);
    }
  }

  /** The three-valued walk is that meaning, closed by a type check of every leaf. */
  lemma {:induction false} EvalIs(e: Expr, c: Context)
    ensures Eval(e, c) == if AllWellTyped(e, c) then Truly(Holds(e, c)) else Error
  {
    ErrorIffLeafErrs(e, c);
    match e {
      case Pred(v, _, _) =>
        assert e in Leaves(e);
        if AllWellTyped(e, c) && !IsNumeric(v) {
          WordIs(e, c);
        }
      case Not(arg) =>
        EvalIs(arg, c);
      case And(left, right) =>
        EvalIs(left, c);
        EvalIs(right, c);
      case Or(left, right) =>
        EvalIs(left, c);
        EvalIs(right, c);
    }
  }

  // ---- the clock --------------------------------------------------------------------

  function DayNumber(w: Weekdays): (n: nat)
    ensures n < 7
  {
    match w
    case Mon => 0
    case Tue => 1
    case Wed => 2
    case Thu => 3
    case Fri => 4
    case Sat => 5
    case Sun => 6
  }

  function NthDay(n: nat): (w: Weekdays)
    requires n < 7
    ensures DayNumber(w) == n
  {
    if n == 0 then Mon else if n == 1 then Tue else if n == 2 then Wed else if n == 3 then Thu
    else if n == 4 then Fri else if n == 5 then Sat else Sun
  }

  /** The hour of day is in range, as the context's declaration promises. */
  predicate ValidClock(c: Context) {
    0 <= c.hour < 24
  }

  /** The context one wall-clock hour later: only the clock moves, and the day rolls over at
      midnight. */
  function NextHour(c: Context): (next: Context)
    requires ValidClock(c)
    ensures ValidClock(next)
  {
    var midnight := c.hour == 23;
    c.(hour := if midnight then 0 else c.hour + 1,
       weekday := if midnight then NthDay((DayNumber(c.weekday) + 1) % 7) else c.weekday,
       dayOfMonth := if midnight then c.dayOfMonth + 1 else c.dayOfMonth,
       secondsSinceBoot := c.secondsSinceBoot + 3600)
  }

  /** The context `k` hours later. */
  function After(c: Context, k: nat): (next: Context)
    requires ValidClock(c)
    ensures ValidClock(next)
  {
    if k == 0 then c else NextHour(After(c, k - 1))
  }

  /** advance_hour. */
  method AdvanceHour(c: Context) returns (next: Context)
    requires ValidClock(c)
    ensures next == NextHour(c)
  {
    next := c.(hour := c.hour + 1);
    if next.hour >= 24 {
      next := next.(hour := 0);
      next := next.(weekday := NthDay((DayNumber(next.weekday) + 1) % 7));
      next := next.(dayOfMonth := next.dayOfMonth + 1);
    }
    next := next.(secondsSinceBoot := next.secondsSinceBoot + 3600);
  }

  /** The context with the clock `hours` after the midnight that began its day. */
  function AtHour(c: Context, hours: nat): Context
    requires ValidClock(c)
  {
    c.(hour := hours % 24,
       weekday := NthDay((DayNumber(c.weekday) + hours / 24) % 7),
       dayOfMonth := c.dayOfMonth + hours / 24,
       secondsSinceBoot := c.secondsSinceBoot + 3600 * (hours - c.hour))
  }

  lemma NextAtHour(c: Context, hours: nat)
    requires ValidClock(c)
    ensures NextHour(AtHour(c, hours)) == AtHour(c, hours + 1)
  {
    HourCarry(hours);
    DayCarry(DayNumber(c.weekday) + hours / 24);
  }

  /** The closed form of `k` clock advances. */
  lemma {:induction false} AfterIs(c: Context, k: nat)
    requires ValidClock(c)
    ensures After(c, k) == AtHour(c, c.hour + k)
  {
    if k == 0 {
      SameDay(NthDay(DayNumber(c.weekday)), c.weekday);
    } else {
      AfterIs(c, k - 1);
      NextAtHour(c, c.hour + k - 1);
    }
  }

  lemma HourCarry(h: nat)
    ensures h % 24 == 23 ==> (h + 1) / 24 == h / 24 + 1 && (h + 1) % 24 == 0
    ensures h % 24 != 23 ==> (h + 1) / 24 == h / 24 && (h + 1) % 24 == h % 24 + 1
  {
  }

  lemma DayCarry(d: nat)
    ensures (d % 7 + 1) % 7 == (d + 1) % 7
  {
  }

  /** The days of the week follow each other from Monday on. */
  lemma MidnightTurnsTheDay(c: Context)
    requires ValidClock(c)
    ensures var next := NextHour(c);
      && (c.hour < 23 ==> next == c.(hour := c.hour + 1, secondsSinceBoot := c.secondsSinceBoot + 3600))
      && (c.hour == 23 ==>
            next == c.(hour := 0, dayOfMonth := c.dayOfMonth + 1, secondsSinceBoot := c.secondsSinceBoot + 3600,
                       weekday := match c.weekday
                                  case Mon => Tue
                                  case Tue => Wed
                                  case Wed => Thu
                                  case Thu => Fri
                                  case Fri => Sat
                                  case Sat => Sun
                                  case Sun => Mon))
  {
  }

  lemma SameDay(v: Weekdays, w: Weekdays)
    requires DayNumber(v) == DayNumber(w)
    ensures v == w
  {
  }

  // ---- the decision -----------------------------------------------------------------

  const DEFER_CAP_STEPS: nat := 168

  /** Step `k` is the first future hour, within the cap, at which the policy is TRUE. */
  ghost predicate FirstOpening(e: Expr, c: Context, k: nat)
    requires ValidClock(c)
  {
    && 1 <= k <= 168
    && Eval(e, After(c, k)) == True
    && forall j: nat :: 1 <= j < k ==> Eval(e, After(c, j)) != True
  }

  /** What a decision on the policy `e` means. */
  ghost predicate Decides(e: Expr, c: Context, d: Decision)
    requires ValidClock(c)
  {
    match d
    case Allow => Eval(e, c) == True
    case Defer(seconds) =>
      Eval(e, c) == False && exists k: nat :: FirstOpening(e, c, k) && seconds == 3600 * k
    case Deny =>
      Eval(e, c) == Error ||
      forall k: nat :: k <= 168 ==> Eval(e, After(c, k)) != True
  }

  /** vault_decide: ALLOW now, DEFER to the first hour within the cap that opens, or DENY. */
  method Decide(p: Option<Policy>, ctx: Option<Context>) returns (d: Decision)
    requires ctx.Some? ==> ValidClock(ctx.value)
    ensures p == None || ctx == None ==> d == Deny
    ensures p.Some? && ctx.Some? ==> Decides(p.value.allow, ctx.value, d)
  {
    if p == None || ctx == None {
      return Deny;
    }
    var allow, c := p.value.allow, ctx.value;
    var now := Eval(allow, c);
    if now == True {
      return Allow;
    }
    if now == Error {
      return Deny;
    }
    d := Project(allow, c);
  }

  lemma {:induction false} AfterKeepsModules(c: Context, k: nat)
    requires ValidClock(c)
    ensures After(c, k).oracleKnown == c.oracleKnown && After(c, k).ssid == c.ssid
  {
    if k > 0 {
      AfterKeepsModules(c, k - 1);
    }
  }

  /** vault_decide once the policy is FALSE now: the search over the projected hours. */
  method Project(allow: Expr, c: Context) returns (d: Decision)
    requires ValidClock(c) && Eval(allow, c) == False
    ensures d != Allow && Decides(allow, c, d)
  {
    var future := c;
    var step := 1;
    while step <= DEFER_CAP_STEPS
      invariant 1 <= step <= DEFER_CAP_STEPS + 1
      invariant future == After(c, step - 1)
      invariant forall j: nat :: j < step ==> Eval(allow, After(c, j)) != True
    {
      future := AdvanceHour(future);
      var r := Eval(allow, future);
      if r == Error {
        AfterKeepsModules(c, step); // so the projection cannot err
        ErrorIgnoresTheClock(allow, c, future);
        assert false;
      }
      if r == True {
        assert FirstOpening(allow, c, step);
        return Defer(step * 3600);
      }
      step := step + 1;
    }
    d := Deny;
  }

  lemma UniqueOpening(e: Expr, c: Context, j: nat, k: nat)
    requires ValidClock(c) && FirstOpening(e, c, j) && FirstOpening(e, c, k)
    ensures j == k
  {
  }

  /** Exactly one decision is right. */
  lemma DecisionIsUnique(e: Expr, c: Context, d: Decision, d': Decision)
    requires ValidClock(c) && Decides(e, c, d) && Decides(e, c, d')
    ensures d == d'
  {
    if d.Defer? && d'.Defer? {
      var j: nat :| FirstOpening(e, c, j) && d.seconds == 3600 * j;
      var k: nat :| FirstOpening(e, c, k) && d'.seconds == 3600 * k;
      UniqueOpening(e, c, j, k);
    }
    assert After(c, 0) == c;
  }

  // ---- the cap is complete for weekly policies --------------------------------------

  predicate Mentions(e: Expr, v: Variable) {
    match e
    case Pred(variable, _, _) => variable == v
    case Not(arg) => Mentions(arg, v)
    case And(left, right) => Mentions(left, v) || Mentions(right, v)
    case Or(left, right) => Mentions(left, v) || Mentions(right, v)
  }

  /** A policy whose clock variables repeat every week. */
  predicate IsWeekly(e: Expr) {
    !Mentions(e, DayOfMonth) && !Mentions(e, SecondsSinceBoot)
  }

  lemma {:induction false} WeeklyDependsOnHourAndDay(e: Expr, c: Context, c': Context)
    requires IsWeekly(e)
    requires c' == c.(dayOfMonth := c'.dayOfMonth, secondsSinceBoot := c'.secondsSinceBoot)
    ensures Eval(e, c) == Eval(e, c')
  {
    match e {
      case Pred(_, _, _) =>
      case Not(arg) =>
        WeeklyDependsOnHourAndDay(arg, c, c');
      case And(left, right) =>
        WeeklyDependsOnHourAndDay(left, c, c');
        WeeklyDependsOnHourAndDay(right, c, c');
      case Or(left, right) =>
        WeeklyDependsOnHourAndDay(left, c, c');
        WeeklyDependsOnHourAndDay(right, c, c');
    }
  }

  lemma WeekCarry(h: nat, d: nat)
    ensures (h + 168) / 24 == h / 24 + 7 && (h + 168) % 24 == h % 24
    ensures (d + (h + 168) / 24) % 7 == (d + h / 24) % 7
  {
  }

  /** 168 hours bring hour and weekday back to where they were. */
  lemma WeekRepeats(e: Expr, c: Context, k: nat)
    requires IsWeekly(e) && ValidClock(c)
    ensures Eval(e, After(c, k + 168)) == Eval(e, After(c, k))
  {
    AfterIs(c, k);
    AfterIs(c, k + DEFER_CAP_STEPS);
    WeekCarry(c.hour + k, DayNumber(c.weekday));
    WeeklyDependsOnHourAndDay(e, After(c, k), After(c, k + DEFER_CAP_STEPS));
  }

  function NonNegative(n: int): nat {
    if n < 0 then 0 else n
  }

  /** No literal of the value lies above this. */
  function LastLiteral(v: Value): int {
    match v
    case Number(x) => x.Floor
    case Range(lo, hi) => if lo.Floor < hi.Floor then hi.Floor else lo.Floor
    case _ => 0
  }

  /** After so many hours the day of the month and the uptime have passed every literal that the
      policy compares them with. */
  function Settles(e: Expr, c: Context): nat {
    match e
    case Pred(DayOfMonth, _, v) => 24 * NonNegative(LastLiteral(v) + 1 - c.dayOfMonth)
    case Pred(SecondsSinceBoot, _, v) => (NonNegative(LastLiteral(v) + 1 - c.secondsSinceBoot) + 3599) / 3600
    case Pred(_, _, _) => 0
    case Not(arg) => Settles(arg, c)
    case And(left, right) => if Settles(left, c) < Settles(right, c) then Settles(right, c) else Settles(left, c)
    case Or(left, right) => if Settles(left, c) < Settles(right, c) then Settles(right, c) else Settles(left, c)
  }

  lemma PassedIsConstant(op: Operator, x: int, y: int, v: Value)
    requires LastLiteral(v) < x && LastLiteral(v) < y
    ensures EvalNumeric(op, x as real, v) == EvalNumeric(op, y as real, v)
  {
  }

  lemma DaysPass(hour: nat, days: nat, k: nat)
    requires 24 * days <= k
    ensures days <= (hour + k) / 24
  {
  }

  lemma SettledLeafRepeats(leaf: Expr, c: Context, k: nat)
    requires leaf.Pred? && ValidClock(c) && Settles(leaf, c) <= k
    ensures Eval(leaf, After(c, k + 168)) == Eval(leaf, After(c, k))
  {
    if IsWeekly(leaf) {
      WeekRepeats(leaf, c, k);
    } else {
      AfterIs(c, k);
      AfterIs(c, k + 168);
      var a, b := After(c, k), After(c, k + 168);
      if leaf.variable == DayOfMonth {
        var days := NonNegative(LastLiteral(leaf.value) + 1 - c.dayOfMonth);
        DaysPass(c.hour, days, k);
        DaysPass(c.hour, days, k + 168);
        PassedIsConstant(leaf.op, a.dayOfMonth, b.dayOfMonth, leaf.value);
      } else {
        PassedIsConstant(leaf.op, a.secondsSinceBoot, b.secondsSinceBoot, leaf.value);
      }
    }
  }

  /** Once it has settled, every policy repeats weekly. */
  lemma {:induction false} SettledRepeats(e: Expr, c: Context, k: nat)
    requires ValidClock(c) && Settles(e, c) <= k
    ensures Eval(e, After(c, k + 168)) == Eval(e, After(c, k))
  {
    match e {
      case Pred(_, _, _) =>
        SettledLeafRepeats(e, c, k);
      case Not(arg) =>
        SettledRepeats(arg, c, k);
      case And(left, right) =>
        SettledRepeats(left, c, k);
        SettledRepeats(right, c, k);
      case Or(left, right) =>
        SettledRepeats(left, c, k);
        SettledRepeats(right, c, k);
    }
  }

  /** How far a search has to look: one week past the last literal. */
  function Horizon(e: Expr, c: Context): nat {
    Settles(e, c) + DEFER_CAP_STEPS
  }

  ghost predicate OpensWithin(e: Expr, c: Context, hours: nat)
    requires ValidClock(c)
  {
    exists k: nat :: k <= hours && Eval(e, After(c, k)) == True
  }

  ghost predicate OpensEver(e: Expr, c: Context)
    requires ValidClock(c)
  {
    exists k: nat :: Eval(e, After(c, k)) == True
  }

  lemma {:induction false} OpensByHorizon(e: Expr, c: Context, k: nat)
    requires ValidClock(c) && Eval(e, After(c, k)) == True
    ensures OpensWithin(e, c, Horizon(e, c))
    decreases k
  {
    if k > Horizon(e, c) {
      SettledRepeats(e, c, k - DEFER_CAP_STEPS);
      OpensByHorizon(e, c, k - DEFER_CAP_STEPS);
    }
  }

  /** A search up to the horizon is complete for every policy. */
  lemma HorizonIsComplete(e: Expr, c: Context)
    requires ValidClock(c)
    ensures OpensEver(e, c) <==> OpensWithin(e, c, Horizon(e, c))
  {
    if OpensEver(e, c) {
      var k: nat :| Eval(e, After(c, k)) == True;
      OpensByHorizon(e, c, k);
    }
  }

  lemma OpeningIsNoError(e: Expr, c: Context, k: nat)
    requires ValidClock(c) && Eval(e, After(c, k)) == True
    ensures Eval(e, c) != Error
  {
    AfterKeepsModules(c, k);
    ErrorIgnoresTheClock(e, c, After(c, k));
  }

  /** The source denies exactly if no hour within its fixed cap opens. */
  lemma DenyIffClosedWithinCap(e: Expr, c: Context)
    requires ValidClock(c)
    ensures Decides(e, c, Deny) <==> !OpensWithin(e, c, 168)
  {
    if OpensWithin(e, c, DEFER_CAP_STEPS) {
      var k: nat :| k <= DEFER_CAP_STEPS && Eval(e, After(c, k)) == True;
      OpeningIsNoError(e, c, k);
    }
  }

  lemma {:induction false} WeeklyIsSettled(e: Expr, c: Context)
    requires IsWeekly(e)
    ensures Settles(e, c) == 0
  {
    match e {
      case Pred(_, _, _) =>
      case Not(arg) => WeeklyIsSettled(arg, c);
      case And(left, right) =>
        WeeklyIsSettled(left, c);
        WeeklyIsSettled(right, c);
      case Or(left, right) =>
        WeeklyIsSettled(left, c);
        WeeklyIsSettled(right, c);
    }
  }

  /** DENY means that no hour, however far ahead, opens the vault. */
  ghost predicate CapIsExact(e: Expr, c: Context)
    requires ValidClock(c)
  {
    Decides(e, c, Deny) <==> !OpensEver(e, c)
  }

  /** For a weekly policy, DENY means that no hour ever opens the vault. */
  lemma CapIsComplete(e: Expr, c: Context)
    requires IsWeekly(e) && ValidClock(c)
    ensures CapIsExact(e, c)
  {
    DenyIffClosedWithinCap(e, c);
    HorizonIsComplete(e, c);
    WeeklyIsSettled(e, c);
  }

  /** A policy that first opens eight days ahead. */
  lemma CapMissesDayOfMonth(c: Context)
    requires ValidClock(c)
    ensures !CapIsExact(Pred(DayOfMonth, Eq, Number((c.dayOfMonth + 8) as real)), c)
  {
    var e := Pred(DayOfMonth, Eq, Number((c.dayOfMonth + 8) as real));
    forall k: nat | k <= DEFER_CAP_STEPS ensures Eval(e, After(c, k)) != True {
      AfterIs(c, k);
    }
    AfterIs(c, 192 - c.hour);
    assert Eval(e, After(c, 192 - c.hour)) == True;
  }

  /** A policy that first opens 169 hours ahead. */
  lemma CapMissesSecondsSinceBoot(c: Context)
    requires ValidClock(c)
    ensures !CapIsExact(Pred(SecondsSinceBoot, Eq, Number((c.secondsSinceBoot + 3600 * 169) as real)), c)
  {
    var e := Pred(SecondsSinceBoot, Eq, Number((c.secondsSinceBoot + 3600 * 169) as real));
    forall k: nat | k <= DEFER_CAP_STEPS ensures Eval(e, After(c, k)) != True {
      AfterIs(c, k);
    }
    AfterIs(c, 169);
    assert Eval(e, After(c, 169)) == True;
  }

  ghost predicate IsOver(e: Expr, vs: set<Variable>) {
    forall v :: Mentions(e, v) ==> v in vs
  }

  /** At any time, the fixed cap is exact for every policy over some variables if and only if
      neither the day of the month nor the uptime is among them. */
  lemma CapIffWeekly(vs: set<Variable>, c: Context)
    requires ValidClock(c)
    ensures (forall e :: IsOver(e, vs) ==> CapIsExact(e, c)) <==> DayOfMonth !in vs && SecondsSinceBoot !in vs
  {
    if DayOfMonth in vs {
      assert IsOver(Pred(DayOfMonth, Eq, Number((c.dayOfMonth + 8) as real)), vs);
      CapMissesDayOfMonth(c);
    } else if SecondsSinceBoot in vs {
      assert IsOver(Pred(SecondsSinceBoot, Eq, Number((c.secondsSinceBoot + 3600 * 169) as real)), vs);
      CapMissesSecondsSinceBoot(c);
    } else {
      forall e | IsOver(e, vs) ensures CapIsExact(e, c) {
        CapIsComplete(e, c);
      }
    }
  }

  // ---- modules that are down --------------------------------------------------------

  /** A policy that mentions the score of an oracle that is not running, or the SSID when there
      is none, is denied at every hour. */
  lemma {:induction false} UnavailableIsError(e: Expr, c: Context)
    requires (Mentions(e, OracleScore) && !c.oracleKnown) || (Mentions(e, NetworkSsid) && c.ssid == None)
    ensures Eval(e, c) == Error
  {
    match e {
      case Pred(_, _, _) =>
      case Not(arg) =>
        UnavailableIsError(arg, c);
      case And(left, right) =>
        if (Mentions(left, OracleScore) && !c.oracleKnown) || (Mentions(left, NetworkSsid) && c.ssid == None) {
          UnavailableIsError(left, c);
        } else {
          UnavailableIsError(right, c);
        }
      case Or(left, right) =>
        if (Mentions(left, OracleScore) && !c.oracleKnown) || (Mentions(left, NetworkSsid) && c.ssid == None) {
          UnavailableIsError(left, c);
        } else {
          UnavailableIsError(right, c);
        }
    }
  }

  /** Whether a value opts in to a module that is not running, by naming `unknown`. */
  predicate OptsIn(v: Value) {
    match v
    case Word(w) => w == "unknown"
    case Quoted(w) => w == "unknown"
    case List(items) => "unknown" in items
    case _ => false
  }

  /** The evaluator's header promises that a predicate on a module that is not running is FALSE
      unless the policy opts in. For the enum modules it is TRUE without an opt-in exactly if
      the operator is `!=` (on a word). */
  lemma UnknownModuleOpens(leaf: Expr, c: Context)
    requires leaf.Pred? && !OptsIn(leaf.value)
    requires (leaf.variable == PulseMode && c.pulse == PulseUnknown) ||
             (leaf.variable == Tether && c.tether == TetherUnknown)
    ensures Eval(leaf, c) == True <==> leaf.op == Ne && (leaf.value.Word? || leaf.value.Quoted?)
  {
    assert WordValue(leaf.variable, c) == Some("unknown");
  }

  /** A module variable whose module is not running. */
  predicate IsDown(v: Variable, c: Context) {
    (v == PulseMode && c.pulse == PulseUnknown) || (v == Tether && c.tether == TetherUnknown)
  }

  /** Every predicate on a module that is down falls on the closing side: it is FALSE where the
      policy asks for it, TRUE under a negation. */
  predicate IsGuarded(e: Expr, c: Context, positive: bool) {
    match e
    case Pred(v, op, value) => IsDown(v, c) ==> (positive <==> (op == Ne <==> OptsIn(value)))
    case Not(arg) => IsGuarded(arg, c, !positive)
    case And(left, right) => IsGuarded(left, c, positive) && IsGuarded(right, c, positive)
    case Or(left, right) => IsGuarded(left, c, positive) && IsGuarded(right, c, positive)
  }

  /** The same context with the modules that were down in any state. */
  predicate IsRevived(c: Context, c': Context) {
    && c' == c.(pulse := c'.pulse, tether := c'.tether)
    && (c.pulse != PulseUnknown ==> c'.pulse == c.pulse)
    && (c.tether != TetherUnknown ==> c'.tether == c.tether)
  }

  /** For one predicate the guard is exact: it is FALSE with its module down, or TRUE under a
      negation, if and only if it is guarded there. */
  lemma GuardIsExact(leaf: Expr, c: Context)
    requires leaf.Pred? && IsDown(leaf.variable, c) && WellTyped(leaf, c.oracleKnown, c.ssid.Some?)
    ensures Eval(leaf, c) != True <==> IsGuarded(leaf, c, true)
    ensures Eval(Not(leaf), c) != True <==> IsGuarded(leaf, c, false)
  {
    assert WordValue(leaf.variable, c) == Some("unknown");
  }

  lemma RevivedLeaf(leaf: Expr, c: Context, c': Context)
    requires leaf.Pred? && IsRevived(c, c') && !IsDown(leaf.variable, c)
    ensures Eval(leaf, c) == Eval(leaf, c')
  {
  }

  /** A policy all of whose predicates on modules that are down are guarded opens only if it would
      open whatever state those modules were in: what is not known never decides for opening. */
  lemma {:induction false} GuardedFailsClosed(e: Expr, c: Context, c': Context, positive: bool)
    requires IsRevived(c, c') && IsGuarded(e, c, positive)
    ensures positive && Eval(e, c) == True ==> Eval(e, c') == True
    ensures !positive && Eval(e, c') == True ==> Eval(e, c) == True
  {
    ErrorIgnoresTheClock(e, c, c');
    match e {
      case Pred(v, _, _) =>
        if !IsDown(v, c) {
          RevivedLeaf(e, c, c');
        } else if Eval(e, c) != Error {
          ErrorIffLeafErrs(e, c);
          assert e in Leaves(e);
          GuardIsExact(e, c);
        }
      case Not(arg) =>
        GuardedFailsClosed(arg, c, c', !positive);
        ErrorIgnoresTheClock(arg, c, c');
      case And(left, right) =>
        GuardedFailsClosed(left, c, c', positive);
        GuardedFailsClosed(right, c, c', positive);
        ErrorIgnoresTheClock(left, c, c');
        ErrorIgnoresTheClock(right, c, c');
      case Or(left, right) =>
        GuardedFailsClosed(left, c, c', positive);
        GuardedFailsClosed(right, c, c', positive);
        ErrorIgnoresTheClock(left, c, c');
        ErrorIgnoresTheClock(right, c, c');
    }
  }

  /** Without the guard it may: `not (pulse_mode == normal)` names neither `unknown` nor `!=`, is
      TRUE while the module is down, and is FALSE once it runs and reports `normal`. */
  lemma NegationOpens(c: Context)
    requires c.pulse == PulseUnknown
    ensures var e := Expr.Not(Pred(PulseMode, Eq, Word("normal")));
      && !IsGuarded(e, c, true) && Eval(e, c) == True
      && IsRevived(c, c.(pulse := Normal)) && Eval(e, c.(pulse := Normal)) == False
  {
    assert PulseName(c.pulse) == "unknown" && "unknown"[0] != "normal"[0];
  }

  // ---- the engine's entry points ----------------------------------------------------

  /** A text that is no policy denies; a policy decides. */
  ghost predicate PolicyDecides(text: string, c: Context, d: Decision)
    requires ValidClock(c)
  {
    match VaultParser.Parse(text)
    case None => d == Deny
    case Some(p) => Decides(p.allow, c, d)
  }

  /** vault_policy_decide: an unparseable policy is denied. */
  method PolicyDecide(text: string, c: Context) returns (d: Decision)
    requires ValidClock(c)
    ensures PolicyDecides(text, c, d)
  {
    var p := VaultParser.ParseText(text);
    d := Decide(p, Some(c));
  }

  /** vault_policy_evaluate: the instantaneous check. */
  method PolicyEvaluate(text: string, c: Context) returns (allowed: bool)
    ensures allowed <==> VaultParser.Parse(text).Some? && Eval(VaultParser.Parse(text).value.allow, c) == True
  {
    var p := VaultParser.ParseText(text);
    allowed := p.Some? && Eval(p.value.allow, c) == True;
  }
}
