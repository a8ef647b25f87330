/**
 The fragment of the syntax tree the accessor rule is exact on, the branch-aware walk over it,
 and the traces its evaluation can leave.
 */
module AccessorSyntax {
  import opened Wrappers

  type Label = nat      // identity of a node that can be reported

  datatype Expr =
    | Leaf                                                 // literals, nested functions, unhandled nodes
    | Ident(tag: Label, name: string)
    | Member(base: Expr, computed: Option<Expr>)
    | Call(tag: Label, callee: Expr, args: seq<Expr>)
    | Await(argument: Expr)
    | Conditional(test: Expr, consequent: Expr, alternate: Expr)
    | Logical(left: Expr, right: Expr)
    // Nodes that evaluate their children in order: binary, assignment, template, array, base,
    // spread, unary, update, new, sequence, `as`, non-null.
    | Children(exprs: seq<Expr>)

  datatype Stmt =
    | EmptyStmt
    | ExprStmt(expr: Expr)
    | Declaration(inits: seq<Expr>)
    | Return(result: Option<Expr>)
    | Throw(error: Expr)
    | Block(body: seq<Stmt>)
    | If(cond: Expr, thn: Stmt, els: Option<Stmt>)

  // accessor.get(...), or any other member call on the accessor
  predicate IsMemberCall(acc: string, e: Expr) {
    e.Call? && e.callee.Member? && e.callee.base.Ident? && e.callee.base.name == acc
  }

  // someFunction(accessor): the identifier counts only as a direct call argument.
  predicate IsPassed(acc: string, e: Expr, isArg: bool) {
    isArg && e.Ident? && e.name == acc
  }

  // ---------- the walk ----------

  // The flag for "an await was seen", the nodes reported so far, and the uses of the accessor that
  // are dealt with otherwise: `skipped` lie inside a reported call, which the walk does not enter;
  // `passed` are calls the walk reached before any await, and so went past, whose computed key awaits.
  datatype Walked = Walked(saw: bool, reports: set<Label>, skipped: set<Label>, passed: set<Label>)

  function Plain(saw: bool): Walked {
    Walked(saw, {}, {}, {})
  }

  // A use of the accessor has two moments: evaluation comes to the node, and the accessor is used.
  // Between them a call evaluates its callee.
  datatype Moment = Entering | Using

  // The uses the walk takes to be entered, or made, after an await.
  function Found(m: Moment, w: Walked): set<Label> {
    w.reports + w.skipped + (if m.Using? then w.passed else {})
  }

  // The walk went through `first` and then came to `a`.
  function Also(a: Walked, first: Walked): Walked {
    Walked(a.saw, first.reports + a.reports, first.skipped + a.skipped, first.passed + a.passed)
  }

  function Join(a: Walked, b: Walked): Walked {
    Also(b, a).(saw := a.saw || b.saw)
  }

  // A call that is reported, given what going on inside it would have found.
  function Reported(tag: Label, saw: bool, inner: Walked): Walked {
    Walked(saw, {tag}, Found(Using, inner), {})
  }

  // A call that is not: a member call on the accessor is passed when its callee may await.
  function Passing(acc: string, e: Expr, callee: Walked, args: Walked): Walked
    requires e.Call?
  {
    var w := Also(args, callee);
    w.(passed := w.passed + (if IsMemberCall(acc, e) && callee.saw then {e.tag} else {}))
  }

  function WalkExpr(acc: string, e: Expr, isArg: bool, saw: bool): Walked
    decreases e
  {
    match e
    case Leaf => Plain(saw)
    case Ident(tag, _) => Plain(saw).(reports := if IsPassed(acc, e, isArg) && saw then {tag} else {})
    case Await(argument) => WalkExpr(acc, argument, false, saw).(saw := true)
    case Call(tag, callee, args) =>
      var a := WalkExpr(acc, callee, false, saw);
      var b := WalkExprs(acc, args, true, a.saw);
      if IsMemberCall(acc, e) && saw then Reported(tag, saw, Also(b, a)) else Passing(acc, e, a, b)
    case Member(base, computed) =>
      var a := WalkExpr(acc, base, false, saw);
      if computed.None? then a else Also(WalkExpr(acc, computed.value, false, a.saw), a)
    case Conditional(test, consequent, alternate) =>
      var a := WalkExpr(acc, test, false, saw);
      Also(Join(WalkExpr(acc, consequent, false, a.saw), WalkExpr(acc, alternate, false, a.saw)), a)
    case Logical(left, right) =>
      var a := WalkExpr(acc, left, false, saw);
      Also(WalkExpr(acc, right, false, a.saw), a)
    case Children(exprs) => WalkExprs(acc, exprs, false, saw)
  }

  function WalkExprs(acc: string, es: seq<Expr>, isArg: bool, saw: bool): Walked
    decreases es
  {
    if es == [] then Plain(saw)
    else
      var a := WalkExpr(acc, es[0], isArg, saw);
      Also(WalkExprs(acc, es[1..], isArg, a.saw), a)
  }

  predicate AlwaysExits(s: Stmt)
    decreases s
  {
    match s
    case Return(_) => true
    case Throw(_) => true
    case Block(body) => |body| > 0 && AlwaysExits(body[|body| - 1])
    case If(_, thn, els) => AlwaysExits(thn) && els.Some? && AlwaysExits(els.value)
    case _ => false
  }

  // The join after an `if`: a branch that always exits has no say.
  function Merge(t: Walked, f: Walked, thnExits: bool, elsExits: bool): Walked {
    Also(f, t).(saw :=
      if thnExits && elsExits then t.saw || f.saw
      else if thnExits then f.saw
      else if elsExits then t.saw
      else t.saw || f.saw)
  }

  function WalkStmt(acc: string, s: Stmt, saw: bool): Walked
    decreases s
  {
    match s
    case EmptyStmt => Plain(saw)
    case ExprStmt(expr) => WalkExpr(acc, expr, false, saw)
    case Declaration(inits) => WalkExprs(acc, inits, false, saw)
    case Return(result) => if result.None? then Plain(saw) else WalkExpr(acc, result.value, false, saw)
    case Throw(error) => WalkExpr(acc, error, false, saw)
    case Block(body) => WalkStmts(acc, body, saw)
    case If(cond, thn, els) =>
      var a := WalkExpr(acc, cond, false, saw);
      var t := WalkStmt(acc, thn, a.saw);
      var f := if els.None? then Plain(a.saw) else WalkStmt(acc, els.value, a.saw);
      Also(Merge(t, f, AlwaysExits(thn), els.Some? && AlwaysExits(els.value)), a)
  }

  function WalkStmts(acc: string, ss: seq<Stmt>, saw: bool): Walked
    decreases ss
  {
    if ss == [] then Plain(saw)
    else
      var a := WalkStmt(acc, ss[0], saw);
      Also(WalkStmts(acc, ss[1..], a.saw), a)
  }

  // The walk as it runs: one flag and one report list, updated in place.
  class Checker {
    const acc: string
    var sawAwait: bool
    var reports: set<Label>

    constructor (acc: string)
      ensures this.acc == acc && !sawAwait && reports == {}
    {
      this.acc, sawAwait, reports := acc, false, {};
    }

    twostate predicate Advanced(w: Walked)
      reads this
    {
      sawAwait == w.saw && reports == old(reports) + w.reports
    }

    method Expr(e: Expr, isArg: bool)
      modifies this
      ensures Advanced(WalkExpr(acc, e, isArg, old(sawAwait)))
      decreases e
    {
      if e.Await? {
        Expr(e.argument, false);
        sawAwait := true;
        return;
      }
      if (IsMemberCall(acc, e) || IsPassed(acc, e, isArg)) && sawAwait {
        reports := reports + {e.tag};
        return;
      }
      match e {
        case Conditional(test, consequent, alternate) =>
          Expr(test, false);
          var beforeBranches := sawAwait;
          Expr(consequent, false);
          var awaitAfterConsequent := sawAwait;
          sawAwait := beforeBranches;
          Expr(alternate, false);
          sawAwait := sawAwait || awaitAfterConsequent;
        case Call(_, callee, args) =>
          Expr(callee, false);
          Exprs(args, true);
        case Member(base, computed) =>
          Expr(base, false);
          if computed.Some? {
            Expr(computed.value, false);
          }
        case Logical(left, right) =>
          Expr(left, false);
          Expr(right, false);
        case Children(exprs) => Exprs(exprs, false);
        case Leaf =>
        case Ident(_, _) =>
      }
    }

    method Exprs(es: seq<Expr>, isArg: bool)
      modifies this
      ensures Advanced(WalkExprs(acc, es, isArg, old(sawAwait)))
      decreases es
    {
      if es != [] {
        Expr(es[0], isArg);
        Exprs(es[1..], isArg);
      }
    }

    method Stmt(s: Stmt)
      modifies this
      ensures Advanced(WalkStmt(acc, s, old(sawAwait)))
      decreases s
    {
      match s {
        case EmptyStmt =>
        case ExprStmt(expr) => Expr(expr, false);
        case Declaration(inits) => Exprs(inits, false);
        case Return(result) => if result.Some? { Expr(result.value, false); }
        case Throw(error) => Expr(error, false);
        case Block(body) => Stmts(body);
        case If(cond, thn, els) =>
          Expr(cond, false);
          var beforeBranches := sawAwait;
          Stmt(thn);
          var awaitAfterConsequent := sawAwait;
          var consequentExits := AlwaysExits(thn);
          sawAwait := beforeBranches;
          if els.Some? {
            Stmt(els.value);
          }
          var awaitAfterAlternate := sawAwait;
          var alternateExits := els.Some? && AlwaysExits(els.value);
          if consequentExits && alternateExits {
            sawAwait := awaitAfterConsequent || awaitAfterAlternate;
          } else if consequentExits {
            sawAwait := awaitAfterAlternate;
          } else if alternateExits {
            sawAwait := awaitAfterConsequent;
          } else {
            sawAwait := awaitAfterConsequent || awaitAfterAlternate;
          }
      }
    }

    method Stmts(ss: seq<Stmt>)
      modifies this
      ensures Advanced(WalkStmts(acc, ss, old(sawAwait)))
      decreases ss
    {
      if ss != [] {
        Stmt(ss[0]);
        Stmts(ss[1..]);
      }
    }
  }

  // ---------- what evaluation can do ----------

  datatype Event = At(moment: Moment, tag: Label) | Suspend

  type Trace = seq<Event>

  // One way through a statement; `exits` when it returns or throws.
  datatype Flow = Flow(trace: Trace, exits: bool)

  ghost function Cat(a: set<Trace>, b: set<Trace>): set<Trace> {
    set s, t | s in a && t in b :: s + t
  }

  function MemberEvent(acc: string, e: Expr, m: Moment): Trace
    requires e.Call?
  {
    if IsMemberCall(acc, e) then [At(m, e.tag)] else []
  }

  // The accessor is used when the callee `accessor.get` has been evaluated, a computed key included,
  // and before the arguments are.
  ghost function Traces(acc: string, e: Expr, isArg: bool): set<Trace>
    decreases e
  {
    match e
    case Leaf => {[]}
    case Ident(tag, _) => {if IsPassed(acc, e, isArg) then [At(Entering, tag), At(Using, tag)] else []}
    case Await(argument) => Cat(Traces(acc, argument, false), {[Suspend]})
    case Call(tag, callee, args) =>
      Cat({MemberEvent(acc, e, Entering)},
          Cat(Traces(acc, callee, false), Cat({MemberEvent(acc, e, Using)}, TracesOf(acc, args, true))))
    case Member(base, computed) =>
      if computed.None? then Traces(acc, base, false)
      else Cat(Traces(acc, base, false), Traces(acc, computed.value, false))
    case Conditional(test, consequent, alternate) =>
      Cat(Traces(acc, test, false), Traces(acc, consequent, false) + Traces(acc, alternate, false))
    case Logical(left, right) => Cat(Traces(acc, left, false), Traces(acc, right, false) + {[]})
    case Children(exprs) => TracesOf(acc, exprs, false)
  }

  ghost function TracesOf(acc: string, es: seq<Expr>, isArg: bool): set<Trace>
    decreases es
  {
    if es == [] then {[]} else Cat(Traces(acc, es[0], isArg), TracesOf(acc, es[1..], isArg))
  }

  ghost function Flowing(traces: set<Trace>, exits: bool): set<Flow> {
    set t | t in traces :: Flow(t, exits)
  }

  // b runs only where a completes.
  ghost function Then(a: set<Flow>, b: set<Flow>): set<Flow> {
    (set f | f in a && f.exits) + (set f, g | f in a && !f.exits && g in b :: Flow(f.trace + g.trace, g.exits))
  }

  ghost function Flows(acc: string, s: Stmt): set<Flow>
    decreases s
  {
    match s
    case EmptyStmt => {Flow([], false)}
    case ExprStmt(expr) => Flowing(Traces(acc, expr, false), false)
    case Declaration(inits) => Flowing(TracesOf(acc, inits, false), false)
    case Return(result) =>
      if result.None? then {Flow([], true)} else Flowing(Traces(acc, result.value, false), true)
    case Throw(error) => Flowing(Traces(acc, error, false), true)
    case Block(body) => FlowsOf(acc, body)
    case If(cond, thn, els) =>
      Then(Flowing(Traces(acc, cond, false), false),
           Flows(acc, thn) + (if els.None? then {Flow([], false)} else Flows(acc, els.value)))
  }

  ghost function FlowsOf(acc: string, ss: seq<Stmt>): set<Flow>
    decreases ss
  {
    if ss == [] then {Flow([], false)} else Then(Flows(acc, ss[0]), FlowsOf(acc, ss[1..]))
  }

  predicate After(saw: bool, t: Trace) {
    saw || Suspend in t
  }

  // The uses whose moment m in the trace comes after a suspension (or at all, when one was already seen).
  function Late(m: Moment, saw: bool, t: Trace): set<Label>
    decreases |t|
  {
    if t == [] then {}
    else (if saw && t[0].At? && t[0].moment == m then {t[0].tag} else {}) + Late(m, saw || t[0] == Suspend, t[1..])
  }
}
