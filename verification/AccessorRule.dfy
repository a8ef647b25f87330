/**
 What the accessor rule reports, skips and goes past: exactly which uses, in terms of the paths of
 the body and its syntax, and where that is right.
 */
module AccessorRule {
  import opened Wrappers
  import opened AccessorSyntax
  import opened AccessorTheorem

  // ---------- the uses the rule does not report ----------

  // A use is skipped only inside a call that is reported.
  lemma {:induction false} SkippedInExpr(acc: string, e: Expr, isArg: bool, saw: bool)
    ensures var w := WalkExpr(acc, e, isArg, saw); w.skipped != {} ==> w.reports != {}
    decreases e
  {
    match e
    case Leaf =>
    case Ident(_, _) =>
    case Await(argument) => SkippedInExpr(acc, argument, false, saw);
    case Call(tag, callee, args) =>
      SkippedInExpr(acc, callee, false, saw);
      SkippedInExprs(acc, args, true, WalkExpr(acc, callee, false, saw).saw);
      assert tag in {tag};
    case Member(base, computed) =>
      SkippedInExpr(acc, base, false, saw);
      if computed.Some? { SkippedInExpr(acc, computed.value, false, WalkExpr(acc, base, false, saw).saw); }
    case Conditional(test, consequent, alternate) =>
      var mid := WalkExpr(acc, test, false, saw).saw;
      SkippedInExpr(acc, test, false, saw);
      SkippedInExpr(acc, consequent, false, mid);
      SkippedInExpr(acc, alternate, false, mid);
    case Logical(left, right) =>
      SkippedInExpr(acc, left, false, saw);
      SkippedInExpr(acc, right, false, WalkExpr(acc, left, false, saw).saw);
    case Children(exprs) => SkippedInExprs(acc, exprs, false, saw);
  }

  lemma {:induction false} SkippedInExprs(acc: string, es: seq<Expr>, isArg: bool, saw: bool)
    ensures var w := WalkExprs(acc, es, isArg, saw); w.skipped != {} ==> w.reports != {}
    decreases es
  {
    if es != [] {
      SkippedInExpr(acc, es[0], isArg, saw);
      SkippedInExprs(acc, es[1..], isArg, WalkExpr(acc, es[0], isArg, saw).saw);
    }
  }

  lemma {:induction false} SkippedInStmt(acc: string, s: Stmt, saw: bool)
    ensures var w := WalkStmt(acc, s, saw); w.skipped != {} ==> w.reports != {}
    decreases s
  {
    match s
    case EmptyStmt =>
    case ExprStmt(expr) => SkippedInExpr(acc, expr, false, saw);
    case Declaration(inits) => SkippedInExprs(acc, inits, false, saw);
    case Return(result) => if result.Some? { SkippedInExpr(acc, result.value, false, saw); }
    case Throw(error) => SkippedInExpr(acc, error, false, saw);
    case Block(body) => SkippedInStmts(acc, body, saw);
    case If(cond, thn, els) =>
      var mid := WalkExpr(acc, cond, false, saw).saw;
      SkippedInExpr(acc, cond, false, saw);
      SkippedInStmt(acc, thn, mid);
      if els.Some? { SkippedInStmt(acc, els.value, mid); }
  }

  lemma {:induction false} SkippedInStmts(acc: string, ss: seq<Stmt>, saw: bool)
    ensures var w := WalkStmts(acc, ss, saw); w.skipped != {} ==> w.reports != {}
    decreases ss
  {
    if ss != [] {
      SkippedInStmt(acc, ss[0], saw);
      SkippedInStmts(acc, ss[1..], WalkStmt(acc, ss[0], saw).saw);
    }
  }

  // No key of a call on the accessor can await; most calls, like `accessor.get(..)`, have no such key.
  predicate QuietKeys(acc: string, e: Expr)
    decreases e
  {
    match e
    case Leaf => true
    case Ident(_, _) => true
    case Await(argument) => QuietKeys(acc, argument)
    case Call(_, callee, args) =>
      (IsMemberCall(acc, e) ==> !WalkExpr(acc, callee, false, false).saw) && QuietKeys(acc, callee) &&
      QuietKeysIn(acc, args)
    case Member(base, computed) => QuietKeys(acc, base) && (computed.Some? ==> QuietKeys(acc, computed.value))
    case Conditional(test, consequent, alternate) =>
      QuietKeys(acc, test) && QuietKeys(acc, consequent) && QuietKeys(acc, alternate)
    case Logical(left, right) => QuietKeys(acc, left) && QuietKeys(acc, right)
    case Children(exprs) => QuietKeysIn(acc, exprs)
  }

  predicate QuietKeysIn(acc: string, es: seq<Expr>)
    decreases es
  {
    es == [] || (QuietKeys(acc, es[0]) && QuietKeysIn(acc, es[1..]))
  }

  predicate QuietStmt(acc: string, s: Stmt)
    decreases s
  {
    match s
    case EmptyStmt => true
    case ExprStmt(expr) => QuietKeys(acc, expr)
    case Declaration(inits) => QuietKeysIn(acc, inits)
    case Return(result) => result.Some? ==> QuietKeys(acc, result.value)
    case Throw(error) => QuietKeys(acc, error)
    case Block(body) => QuietStmts(acc, body)
    case If(cond, thn, els) => QuietKeys(acc, cond) && QuietStmt(acc, thn) && (els.Some? ==> QuietStmt(acc, els.value))
  }

  predicate QuietStmts(acc: string, ss: seq<Stmt>)
    decreases ss
  {
    ss == [] || (QuietStmt(acc, ss[0]) && QuietStmts(acc, ss[1..]))
  }

  lemma {:induction false} QuietExpr(acc: string, e: Expr, isArg: bool, saw: bool)
    requires QuietKeys(acc, e)
    ensures WalkExpr(acc, e, isArg, saw).passed == {}
    decreases e
  {
    match e
    case Leaf =>
    case Ident(_, _) =>
    case Await(argument) => QuietExpr(acc, argument, false, saw);
    case Call(tag, callee, args) =>
      QuietExpr(acc, callee, false, saw);
      QuietExprs(acc, args, true, WalkExpr(acc, callee, false, saw).saw);
    case Member(base, computed) =>
      QuietExpr(acc, base, false, saw);
      if computed.Some? { QuietExpr(acc, computed.value, false, WalkExpr(acc, base, false, saw).saw); }
    case Conditional(test, consequent, alternate) =>
      var mid := WalkExpr(acc, test, false, saw).saw;
      QuietExpr(acc, test, false, saw);
      QuietExpr(acc, consequent, false, mid);
      QuietExpr(acc, alternate, false, mid);
    case Logical(left, right) =>
      QuietExpr(acc, left, false, saw);
      QuietExpr(acc, right, false, WalkExpr(acc, left, false, saw).saw);
    case Children(exprs) => QuietExprs(acc, exprs, false, saw);
  }

  lemma {:induction false} QuietExprs(acc: string, es: seq<Expr>, isArg: bool, saw: bool)
    requires QuietKeysIn(acc, es)
    ensures WalkExprs(acc, es, isArg, saw).passed == {}
    decreases es
  {
    if es != [] {
      QuietExpr(acc, es[0], isArg, saw);
      QuietExprs(acc, es[1..], isArg, WalkExpr(acc, es[0], isArg, saw).saw);
    }
  }

  lemma {:induction false} QuietPassesNothing(acc: string, s: Stmt, saw: bool)
    requires QuietStmt(acc, s)
    ensures WalkStmt(acc, s, saw).passed == {}
    decreases s
  {
    match s
    case EmptyStmt =>
    case ExprStmt(expr) => QuietExpr(acc, expr, false, saw);
    case Declaration(inits) => QuietExprs(acc, inits, false, saw);
    case Return(result) => if result.Some? { QuietExpr(acc, result.value, false, saw); }
    case Throw(error) => QuietExpr(acc, error, false, saw);
    case Block(body) => QuietAll(acc, body, saw);
    case If(cond, thn, els) =>
      var mid := WalkExpr(acc, cond, false, saw).saw;
      QuietExpr(acc, cond, false, saw);
      QuietPassesNothing(acc, thn, mid);
      if els.Some? { QuietPassesNothing(acc, els.value, mid); }
  }

  lemma {:induction false} QuietAll(acc: string, ss: seq<Stmt>, saw: bool)
    requires QuietStmts(acc, ss)
    ensures WalkStmts(acc, ss, saw).passed == {}
    decreases ss
  {
    if ss != [] {
      QuietPassesNothing(acc, ss[0], saw);
      QuietAll(acc, ss[1..], WalkStmt(acc, ss[0], saw).saw);
    }
  }

  // ---------- where the uses are ----------

  // The uses of the accessor in an expression.
  function UsesIn(acc: string, e: Expr, isArg: bool): set<Label>
    decreases e
  {
    match e
    case Leaf => {}
    case Ident(tag, _) => if IsPassed(acc, e, isArg) then {tag} else {}
    case Await(argument) => UsesIn(acc, argument, false)
    case Call(tag, callee, args) =>
      (if IsMemberCall(acc, e) then {tag} else {}) + (UsesIn(acc, callee, false) + UsesInAll(acc, args, true))
    case Member(base, computed) =>
      UsesIn(acc, base, false) + (if computed.None? then {} else UsesIn(acc, computed.value, false))
    case Conditional(test, consequent, alternate) =>
      UsesIn(acc, test, false) + (UsesIn(acc, consequent, false) + UsesIn(acc, alternate, false))
    case Logical(left, right) => UsesIn(acc, left, false) + UsesIn(acc, right, false)
    case Children(exprs) => UsesInAll(acc, exprs, false)
  }

  function UsesInAll(acc: string, es: seq<Expr>, isArg: bool): set<Label>
    decreases es
  {
    if es == [] then {} else UsesIn(acc, es[0], isArg) + UsesInAll(acc, es[1..], isArg)
  }

  function UsesInStmt(acc: string, s: Stmt): set<Label>
    decreases s
  {
    match s
    case EmptyStmt => {}
    case ExprStmt(expr) => UsesIn(acc, expr, false)
    case Declaration(inits) => UsesInAll(acc, inits, false)
    case Return(result) => if result.None? then {} else UsesIn(acc, result.value, false)
    case Throw(error) => UsesIn(acc, error, false)
    case Block(body) => UsesInStmts(acc, body)
    case If(cond, thn, els) =>
      UsesIn(acc, cond, false) + (UsesInStmt(acc, thn) + (if els.None? then {} else UsesInStmt(acc, els.value)))
  }

  function UsesInStmts(acc: string, ss: seq<Stmt>): set<Label>
    decreases ss
  {
    if ss == [] then {} else UsesInStmt(acc, ss[0]) + UsesInStmts(acc, ss[1..])
  }

  // The uses that lie inside (in the callee or the arguments of) a member call on the accessor that is in r.
  function Inside(acc: string, e: Expr, r: set<Label>): set<Label>
    decreases e
  {
    match e
    case Leaf => {}
    case Ident(_, _) => {}
    case Await(argument) => Inside(acc, argument, r)
    case Call(tag, callee, args) =>
      (if IsMemberCall(acc, e) && tag in r then UsesIn(acc, callee, false) + UsesInAll(acc, args, true) else {}) +
      (Inside(acc, callee, r) + InsideAll(acc, args, r))
    case Member(base, computed) =>
      Inside(acc, base, r) + (if computed.None? then {} else Inside(acc, computed.value, r))
    case Conditional(test, consequent, alternate) =>
      Inside(acc, test, r) + (Inside(acc, consequent, r) + Inside(acc, alternate, r))
    case Logical(left, right) => Inside(acc, left, r) + Inside(acc, right, r)
    case Children(exprs) => InsideAll(acc, exprs, r)
  }

  function InsideAll(acc: string, es: seq<Expr>, r: set<Label>): set<Label>
    decreases es
  {
    if es == [] then {} else Inside(acc, es[0], r) + InsideAll(acc, es[1..], r)
  }

  function InsideStmt(acc: string, s: Stmt, r: set<Label>): set<Label>
    decreases s
  {
    match s
    case EmptyStmt => {}
    case ExprStmt(expr) => Inside(acc, expr, r)
    case Declaration(inits) => InsideAll(acc, inits, r)
    case Return(result) => if result.None? then {} else Inside(acc, result.value, r)
    case Throw(error) => Inside(acc, error, r)
    case Block(body) => InsideStmts(acc, body, r)
    case If(cond, thn, els) =>
      Inside(acc, cond, r) + (InsideStmt(acc, thn, r) + (if els.None? then {} else InsideStmt(acc, els.value, r)))
  }

  function InsideStmts(acc: string, ss: seq<Stmt>, r: set<Label>): set<Label>
    decreases ss
  {
    if ss == [] then {} else InsideStmt(acc, ss[0], r) + InsideStmts(acc, ss[1..], r)
  }

  // No two uses have the same label: labels are node identities.
  predicate Labelled(acc: string, e: Expr, isArg: bool)
    decreases e
  {
    match e
    case Leaf => true
    case Ident(_, _) => true
    case Await(argument) => Labelled(acc, argument, false)
    case Call(tag, callee, args) =>
      && Labelled(acc, callee, false) && LabelledAll(acc, args, true)
      && UsesIn(acc, callee, false) !! UsesInAll(acc, args, true)
      && (IsMemberCall(acc, e) ==> tag !in UsesIn(acc, callee, false) + UsesInAll(acc, args, true))
    case Member(base, computed) =>
      Labelled(acc, base, false) &&
      (computed.Some? ==> Labelled(acc, computed.value, false) &&
                          UsesIn(acc, base, false) !! UsesIn(acc, computed.value, false))
    case Conditional(test, consequent, alternate) =>
      && Labelled(acc, test, false) && Labelled(acc, consequent, false) && Labelled(acc, alternate, false)
      && UsesIn(acc, consequent, false) !! UsesIn(acc, alternate, false)
      && UsesIn(acc, test, false) !! UsesIn(acc, consequent, false) + UsesIn(acc, alternate, false)
    case Logical(left, right) =>
      Labelled(acc, left, false) && Labelled(acc, right, false) && UsesIn(acc, left, false) !! UsesIn(acc, right, false)
    case Children(exprs) => LabelledAll(acc, exprs, false)
  }

  predicate LabelledAll(acc: string, es: seq<Expr>, isArg: bool)
    decreases es
  {
    es == [] || (Labelled(acc, es[0], isArg) && LabelledAll(acc, es[1..], isArg) &&
                 UsesIn(acc, es[0], isArg) !! UsesInAll(acc, es[1..], isArg))
  }

  predicate LabelledStmt(acc: string, s: Stmt)
    decreases s
  {
    match s
    case EmptyStmt => true
    case ExprStmt(expr) => Labelled(acc, expr, false)
    case Declaration(inits) => LabelledAll(acc, inits, false)
    case Return(result) => result.Some? ==> Labelled(acc, result.value, false)
    case Throw(error) => Labelled(acc, error, false)
    case Block(body) => LabelledStmts(acc, body)
    case If(cond, thn, els) =>
      && Labelled(acc, cond, false) && LabelledStmt(acc, thn) && UsesIn(acc, cond, false) !! UsesInStmt(acc, thn)
      && (els.Some? ==> LabelledStmt(acc, els.value) && UsesInStmt(acc, thn) !! UsesInStmt(acc, els.value) &&
                        UsesIn(acc, cond, false) !! UsesInStmt(acc, els.value))
  }

  predicate LabelledStmts(acc: string, ss: seq<Stmt>)
    decreases ss
  {
    ss == [] || (LabelledStmt(acc, ss[0]) && LabelledStmts(acc, ss[1..]) &&
                 UsesInStmt(acc, ss[0]) !! UsesInStmts(acc, ss[1..]))
  }

  // With the flag up, every use is found.
  lemma {:induction false} AllFound(acc: string, e: Expr, isArg: bool)
    ensures var w := WalkExpr(acc, e, isArg, true); w.saw && Found(Using, w) == UsesIn(acc, e, isArg)
    decreases e
  {
    match e
    case Leaf =>
    case Ident(_, _) =>
    case Await(argument) => AllFound(acc, argument, false);
    case Call(_, callee, args) =>
      AllFound(acc, callee, false);
      AllFoundIn(acc, args, true);
      FoundAlso(Using, WalkExpr(acc, callee, false, true), WalkExprs(acc, args, true, true));
    case Member(base, computed) =>
      AllFound(acc, base, false);
      if computed.Some? {
        AllFound(acc, computed.value, false);
        FoundAlso(Using, WalkExpr(acc, base, false, true), WalkExpr(acc, computed.value, false, true));
      }
    case Conditional(test, consequent, alternate) =>
      AllFound(acc, test, false); AllFound(acc, consequent, false); AllFound(acc, alternate, false);
      var a, b := WalkExpr(acc, consequent, false, true), WalkExpr(acc, alternate, false, true);
      FoundJoin(Using, a, b);
      FoundAlso(Using, WalkExpr(acc, test, false, true), Join(a, b));
    case Logical(left, right) =>
      AllFound(acc, left, false); AllFound(acc, right, false);
      FoundAlso(Using, WalkExpr(acc, left, false, true), WalkExpr(acc, right, false, true));
    case Children(exprs) => AllFoundIn(acc, exprs, false);
  }

  lemma {:induction false} AllFoundIn(acc: string, es: seq<Expr>, isArg: bool)
    ensures var w := WalkExprs(acc, es, isArg, true); w.saw && Found(Using, w) == UsesInAll(acc, es, isArg)
    decreases es
  {
    if es != [] {
      AllFound(acc, es[0], isArg);
      AllFoundIn(acc, es[1..], isArg);
      FoundAlso(Using, WalkExpr(acc, es[0], isArg, true), WalkExprs(acc, es[1..], isArg, true));
    }
  }

  // What a walk does with the uses of a piece of code: if r holds those it takes to be entered late,
  // then it skips exactly the ones inside a member call that is in r, and reports none of these.
  ghost predicate Fits(r: set<Label>, uses: set<Label>, inside: set<Label>, w: Walked) {
    && Found(Using, w) <= uses && inside <= uses
    && (r * uses == Found(Entering, w) ==> inside == w.skipped)
    && w.reports !! w.skipped && w.passed !! Found(Entering, w)
  }

  lemma FitsBoth(r: set<Label>, ua: set<Label>, ia: set<Label>, a: Walked, ub: set<Label>, ib: set<Label>, b: Walked)
    requires Fits(r, ua, ia, a) && Fits(r, ub, ib, b) && ua !! ub
    ensures Fits(r, ua + ub, ia + ib, Also(b, a))
  {
    FoundAlso(Entering, a, b);
    FoundAlso(Using, a, b);
    if r * (ua + ub) == Found(Entering, Also(b, a)) {
      assert r * ua == Found(Entering, a) by {
        assert forall x :: x in r && x in ua ==> x in r * (ua + ub);
      }
      assert r * ub == Found(Entering, b) by {
        assert forall x :: x in r && x in ub ==> x in r * (ua + ub);
      }
    }
  }

  lemma FitsNothing(r: set<Label>, saw: bool)
    ensures Fits(r, {}, {}, Plain(saw))
  {
  }

  ghost predicate ExprFits(acc: string, e: Expr, isArg: bool, saw: bool, r: set<Label>) {
    Fits(r, UsesIn(acc, e, isArg), Inside(acc, e, r), WalkExpr(acc, e, isArg, saw))
  }

  lemma CallFits(acc: string, e: Expr, isArg: bool, saw: bool, r: set<Label>)
    requires e.Call? && Labelled(acc, e, isArg) && ExprFits(acc, e.callee, false, saw, r)
    requires var b := WalkExprs(acc, e.args, true, WalkExpr(acc, e.callee, false, saw).saw);
             Fits(r, UsesInAll(acc, e.args, true), InsideAll(acc, e.args, r), b)
    ensures ExprFits(acc, e, isArg, saw, r)
  {
    var a := WalkExpr(acc, e.callee, false, saw);
    var b := WalkExprs(acc, e.args, true, a.saw);
    var uses := UsesIn(acc, e.callee, false) + UsesInAll(acc, e.args, true);
    var inside := Inside(acc, e.callee, r) + InsideAll(acc, e.args, r);
    FitsBoth(r, UsesIn(acc, e.callee, false), Inside(acc, e.callee, r), a,
             UsesInAll(acc, e.args, true), InsideAll(acc, e.args, r), b);
    if IsMemberCall(acc, e) && saw {
      AllFound(acc, e.callee, false);
      AllFoundIn(acc, e.args, true);
      FoundAlso(Using, a, b);
      ReportedFits(r, e.tag, uses, inside, Also(b, a), saw);
    } else {
      PassingFits(acc, e, r, uses, inside, a, b);
    }
  }

  lemma ReportedFits(r: set<Label>, tag: Label, uses: set<Label>, inside: set<Label>, inner: Walked, saw: bool)
    requires inside <= uses && Found(Using, inner) == uses && tag !in uses
    ensures Fits(r, {tag} + uses, (if tag in r then uses else {}) + inside, Reported(tag, saw, inner))
  {
    if r * ({tag} + uses) == {tag} + uses {
      assert tag in r * ({tag} + uses);
    }
  }

  lemma PassingFits(acc: string, e: Expr, r: set<Label>, uses: set<Label>, inside: set<Label>, a: Walked, b: Walked)
    requires e.Call? && Fits(r, uses, inside, Also(b, a)) && (IsMemberCall(acc, e) ==> e.tag !in uses)
    ensures Fits(r, (if IsMemberCall(acc, e) then {e.tag} else {}) + uses,
                 (if IsMemberCall(acc, e) && e.tag in r then uses else {}) + inside, Passing(acc, e, a, b))
  {
    var inner, w := Also(b, a), Passing(acc, e, a, b);
    assert Found(Entering, w) == Found(Entering, inner);
    if IsMemberCall(acc, e) && r * ({e.tag} + uses) == Found(Entering, w) {
      var all := r * ({e.tag} + uses);
      assert e.tag in all <==> e.tag in r;
      assert forall x :: x in r && x in uses ==> x in r * ({e.tag} + uses);
      assert r * uses == Found(Entering, inner);
    } else if !IsMemberCall(acc, e) {
      assert {} + uses == uses && w == inner;
    }
  }

  lemma {:induction false} FitsExpr(acc: string, e: Expr, isArg: bool, saw: bool, r: set<Label>)
    requires Labelled(acc, e, isArg)
    ensures ExprFits(acc, e, isArg, saw, r)
    decreases e
  {
    match e
    case Leaf =>
    case Ident(_, _) =>
    case Await(argument) => FitsExpr(acc, argument, false, saw, r);
    case Call(tag, callee, args) =>
      FitsExpr(acc, callee, false, saw, r);
      FitsExprs(acc, args, true, WalkExpr(acc, callee, false, saw).saw, r);
      CallFits(acc, e, isArg, saw, r);
    case Member(base, computed) =>
      FitsExpr(acc, base, false, saw, r);
      if computed.Some? {
        var a := WalkExpr(acc, base, false, saw);
        FitsExpr(acc, computed.value, false, a.saw, r);
        FitsBoth(r, UsesIn(acc, base, false), Inside(acc, base, r), a,
                 UsesIn(acc, computed.value, false), Inside(acc, computed.value, r),
                 WalkExpr(acc, computed.value, false, a.saw));
      }
    case Conditional(test, consequent, alternate) =>
      var a := WalkExpr(acc, test, false, saw);
      var b, c := WalkExpr(acc, consequent, false, a.saw), WalkExpr(acc, alternate, false, a.saw);
      FitsExpr(acc, test, false, saw, r);
      FitsExpr(acc, consequent, false, a.saw, r);
      FitsExpr(acc, alternate, false, a.saw, r);
      var ub, uc := UsesIn(acc, consequent, false), UsesIn(acc, alternate, false);
      var ib, ic := Inside(acc, consequent, r), Inside(acc, alternate, r);
      FitsBoth(r, ub, ib, b, uc, ic, c);
      SawIsNoUse(r, ub + uc, ib + ic, Also(c, b), b.saw || c.saw);
      FitsBoth(r, UsesIn(acc, test, false), Inside(acc, test, r), a, ub + uc, ib + ic, Join(b, c));
    case Logical(left, right) =>
      var a := WalkExpr(acc, left, false, saw);
      FitsExpr(acc, left, false, saw, r);
      FitsExpr(acc, right, false, a.saw, r);
      FitsBoth(r, UsesIn(acc, left, false), Inside(acc, left, r), a,
               UsesIn(acc, right, false), Inside(acc, right, r), WalkExpr(acc, right, false, a.saw));
    case Children(exprs) => FitsExprs(acc, exprs, false, saw, r);
  }

  lemma SawIsNoUse(r: set<Label>, uses: set<Label>, inside: set<Label>, w: Walked, saw: bool)
    requires Fits(r, uses, inside, w)
    ensures Fits(r, uses, inside, w.(saw := saw))
  {
  }

  lemma {:induction false} FitsExprs(acc: string, es: seq<Expr>, isArg: bool, saw: bool, r: set<Label>)
    requires LabelledAll(acc, es, isArg)
    ensures Fits(r, UsesInAll(acc, es, isArg), InsideAll(acc, es, r), WalkExprs(acc, es, isArg, saw))
    decreases es
  {
    if es != [] {
      var a := WalkExpr(acc, es[0], isArg, saw);
      FitsExpr(acc, es[0], isArg, saw, r);
      FitsExprs(acc, es[1..], isArg, a.saw, r);
      FitsBoth(r, UsesIn(acc, es[0], isArg), Inside(acc, es[0], r), a,
               UsesInAll(acc, es[1..], isArg), InsideAll(acc, es[1..], r), WalkExprs(acc, es[1..], isArg, a.saw));
    }
  }

  lemma {:induction false} FitsStmt(acc: string, s: Stmt, saw: bool, r: set<Label>)
    requires LabelledStmt(acc, s)
    ensures Fits(r, UsesInStmt(acc, s), InsideStmt(acc, s, r), WalkStmt(acc, s, saw))
    decreases s
  {
    match s
    case EmptyStmt =>
    case ExprStmt(expr) => FitsExpr(acc, expr, false, saw, r);
    case Declaration(inits) => FitsExprs(acc, inits, false, saw, r);
    case Return(result) => if result.Some? { FitsExpr(acc, result.value, false, saw, r); }
    case Throw(error) => FitsExpr(acc, error, false, saw, r);
    case Block(body) => FitsStmts(acc, body, saw, r);
    case If(cond, thn, els) =>
      var a := WalkExpr(acc, cond, false, saw);
      var t, f := WalkStmt(acc, thn, a.saw), WalkElse(acc, els, a.saw);
      var ut, uf := UsesInStmt(acc, thn), if els.None? then {} else UsesInStmt(acc, els.value);
      var it, jf := InsideStmt(acc, thn, r), if els.None? then {} else InsideStmt(acc, els.value, r);
      FitsExpr(acc, cond, false, saw, r);
      FitsStmt(acc, thn, a.saw, r);
      if els.Some? { FitsStmt(acc, els.value, a.saw, r); } else { FitsNothing(r, a.saw); }
      FitsBoth(r, ut, it, t, uf, jf, f);
      var merged := Merge(t, f, AlwaysExits(thn), ElseExits(els));
      SawIsNoUse(r, ut + uf, it + jf, Also(f, t), merged.saw);
      FitsBoth(r, UsesIn(acc, cond, false), Inside(acc, cond, r), a, ut + uf, it + jf, merged);
  }

  lemma {:induction false} FitsStmts(acc: string, ss: seq<Stmt>, saw: bool, r: set<Label>)
    requires LabelledStmts(acc, ss)
    ensures Fits(r, UsesInStmts(acc, ss), InsideStmts(acc, ss, r), WalkStmts(acc, ss, saw))
    decreases ss
  {
    if ss != [] {
      var a := WalkStmt(acc, ss[0], saw);
      FitsStmt(acc, ss[0], saw, r);
      FitsStmts(acc, ss[1..], a.saw, r);
      FitsBoth(r, UsesInStmt(acc, ss[0]), InsideStmt(acc, ss[0], r), a,
               UsesInStmts(acc, ss[1..]), InsideStmts(acc, ss[1..], r), WalkStmts(acc, ss[1..], a.saw));
    }
  }

  // ---------- the main results ----------

  // Some way through the body uses the accessor, at this node, after an await.
  ghost predicate UsedLate(acc: string, body: Stmt, tag: Label) {
    exists f :: f in Flows(acc, body) && tag in Late(Using, false, f.trace)
  }

  // Some way through the body comes to this use after an await.
  ghost predicate EnteredLate(acc: string, body: Stmt, tag: Label) {
    exists f :: f in Flows(acc, body) && tag in Late(Entering, false, f.trace)
  }

  ghost function LateEntries(acc: string, body: Stmt): set<Label> {
    set f, tag | f in Flows(acc, body) && tag in Late(Entering, false, f.trace) :: tag
  }

  function WalkBody(acc: string, body: Stmt): Walked {
    WalkStmt(acc, body, false)
  }

  function Reports(acc: string, body: Stmt): set<Label> {
    WalkBody(acc, body).reports
  }

  // The calls on the accessor reached before any await whose own key awaits.
  function Passed(acc: string, body: Stmt): set<Label> {
    WalkBody(acc, body).passed
  }

  // Whether or not there is dead code, a late use is reported, lies inside a call that is, or is a
  // call that was passed; so where no call was passed, a body with a late use has a report.
  lemma NothingMissed(acc: string, body: Stmt, tag: Label)
    ensures UsedLate(acc, body, tag) ==> tag in Found(Using, WalkBody(acc, body))
    ensures UsedLate(acc, body, tag) && Passed(acc, body) == {} ==> Reports(acc, body) != {}
  {
    StmtSound(Using, acc, body, false);
    SkippedInStmt(acc, body, false);
    if UsedLate(acc, body, tag) {
      assert tag in Found(Using, WalkBody(acc, body));
    }
  }

  // Without dead code there are no false alarms, and a passed call is a late use.
  lemma NoFalseAlarms(acc: string, body: Stmt, tag: Label)
    requires NoDeadCode(body) && tag in Found(Using, WalkBody(acc, body))
    ensures UsedLate(acc, body, tag)
  {
    StmtExact(Using, acc, body, false);
  }

  // Without dead code, a late use exists exactly when something is reported or passed; so a report
  // is given exactly when it should be, unless calls were passed and nothing was reported.
  lemma ReportsIffUsedLate(acc: string, body: Stmt)
    requires NoDeadCode(body)
    ensures (exists tag :: UsedLate(acc, body, tag)) <==> Reports(acc, body) != {} || Passed(acc, body) != {}
    ensures (Reports(acc, body) != {} <==> exists tag :: UsedLate(acc, body, tag)) <==>
            (Passed(acc, body) != {} ==> Reports(acc, body) != {})
  {
    var reports, passed := Reports(acc, body), Passed(acc, body);
    if tag :| tag in reports {
      NoFalseAlarms(acc, body, tag);
    }
    if tag :| tag in passed {
      NoFalseAlarms(acc, body, tag);
    }
    if tag :| UsedLate(acc, body, tag) {
      NothingMissed(acc, body, tag);
    }
  }

  // Exactly what is reported, and what is missed, in terms of the paths and the syntax alone: without
  // dead code, the uses that some path comes to after an await, save those inside another such call,
  // are reported; and those that are used after an await but never come to after one are missed.
  lemma ReportsAreOutermost(acc: string, body: Stmt, tag: Label)
    requires NoDeadCode(body) && LabelledStmt(acc, body)
    ensures tag in Reports(acc, body) <==>
            EnteredLate(acc, body, tag) && tag !in InsideStmt(acc, body, LateEntries(acc, body))
    ensures tag in Passed(acc, body) <==> UsedLate(acc, body, tag) && !EnteredLate(acc, body, tag)
  {
    var w, late := WalkBody(acc, body), LateEntries(acc, body);
    EntriesFound(acc, body);
    FitsStmt(acc, body, false, late);
    assert late * UsesInStmt(acc, body) == Found(Entering, w);
    assert EnteredLate(acc, body, tag) <==> tag in late;
    NothingMissed(acc, body, tag);
    if tag in Found(Using, w) {
      NoFalseAlarms(acc, body, tag);
    }
  }

  lemma EntriesFound(acc: string, body: Stmt)
    requires NoDeadCode(body)
    ensures LateEntries(acc, body) == Found(Entering, WalkBody(acc, body))
  {
    StmtSound(Entering, acc, body, false);
    StmtExact(Entering, acc, body, false);
    forall tag ensures tag in LateEntries(acc, body) <==> tag in Found(Entering, WalkBody(acc, body)) {
      if tag in Found(Entering, WalkBody(acc, body)) {
        var f :| f in Flows(acc, body) && tag in Late(Entering, false, f.trace);
      }
    }
  }

  // Ordinary code: no dead statements and no awaiting keys. Node by node, the late uses are the
  // reported ones and those inside a reported call.
  lemma RightOnOrdinaryCode(acc: string, body: Stmt, tag: Label)
    requires NoDeadCode(body) && QuietStmt(acc, body)
    ensures UsedLate(acc, body, tag) <==> tag in Reports(acc, body) + WalkBody(acc, body).skipped
    ensures LabelledStmt(acc, body) ==> WalkBody(acc, body).skipped == InsideStmt(acc, body, LateEntries(acc, body))
    ensures Reports(acc, body) != {} <==> exists tag :: UsedLate(acc, body, tag)
  {
    if LabelledStmt(acc, body) {
      EntriesFound(acc, body);
      FitsStmt(acc, body, false, LateEntries(acc, body));
    }
    QuietPassesNothing(acc, body, false);
    ReportsIffUsedLate(acc, body);
    if UsedLate(acc, body, tag) {
      NothingMissed(acc, body, tag);
    }
    if tag in Found(Using, WalkBody(acc, body)) {
      NoFalseAlarms(acc, body, tag);
    }
  }

  // Without dead code, `blockAlwaysExits` holds exactly of what has no completing way through;
  // with dead code it still never holds of what can complete.
  lemma AlwaysExitsMeansIt(acc: string, s: Stmt)
    ensures AlwaysExits(s) ==> forall f :: f in Flows(acc, s) ==> f.exits
    ensures NoDeadCode(s) ==> (AlwaysExits(s) <==> forall f :: f in Flows(acc, s) ==> f.exits)
  {
    StmtSound(Using, acc, s, false);
    if NoDeadCode(s) {
      StmtExact(Using, acc, s, false);
    }
  }

  // ---------- dead code ----------

  // The statement without the statements that follow one that always exits.
  function Live(s: Stmt): Stmt
    decreases s
  {
    match s
    case Block(body) => Block(LiveIn(body))
    case If(cond, thn, els) => If(cond, Live(thn), if els.None? then None else Some(Live(els.value)))
    case _ => s
  }

  function LiveIn(ss: seq<Stmt>): seq<Stmt>
    decreases ss
  {
    if ss == [] then []
    else
      var first := Live(ss[0]);
      if AlwaysExits(first) then [first] else [first] + LiveIn(ss[1..])
  }

  lemma NothingBehind(a: set<Flow>, b: set<Flow>)
    requires forall f :: f in a ==> f.exits
    ensures Then(a, b) == a
  {
  }

  // Dead code is never evaluated: what is left goes the same ways, and has no dead code in it.
  lemma {:induction false} LiveFlows(acc: string, s: Stmt)
    ensures Flows(acc, Live(s)) == Flows(acc, s) && NoDeadCode(Live(s))
    decreases s
  {
    match s
    case Block(body) => LiveFlowsIn(acc, body);
    case If(cond, thn, els) =>
      LiveFlows(acc, thn);
      if els.Some? { LiveFlows(acc, els.value); }
    case _ =>
  }

  lemma {:induction false} LiveFlowsIn(acc: string, ss: seq<Stmt>)
    ensures FlowsOf(acc, LiveIn(ss)) == FlowsOf(acc, ss) && NoDeadCodeIn(LiveIn(ss))
    decreases ss
  {
    if ss != [] {
      var first, rest := Live(ss[0]), LiveIn(ss[1..]);
      LiveFlows(acc, ss[0]);
      LiveFlowsIn(acc, ss[1..]);
      if AlwaysExits(first) {
        StmtSound(Using, acc, first, false);
        NothingBehind(Flows(acc, first), FlowsOf(acc, ss[1..]));
        NothingBehind(Flows(acc, first), {Flow([], false)});
        assert [first][1..] == [];
      } else {
        assert ([first] + rest)[1..] == rest;
      }
    }
  }

  // For every body and every node: it is used late on some path if and only if the walk over the live
  // part reports it, skips it inside a reported call, or passes it.
  lemma LateUsesExactly(acc: string, body: Stmt, tag: Label)
    ensures UsedLate(acc, body, tag) <==> tag in Found(Using, WalkBody(acc, Live(body)))
  {
    LiveFlows(acc, body);
    if UsedLate(acc, body, tag) {
      NothingMissed(acc, Live(body), tag);
    }
    if tag in Found(Using, WalkBody(acc, Live(body))) {
      NoFalseAlarms(acc, Live(body), tag);
    }
  }

  lemma LateUseIffLiveReport(acc: string, body: Stmt)
    ensures (exists tag :: UsedLate(acc, body, tag)) <==>
            (Reports(acc, Live(body)) != {} || Passed(acc, Live(body)) != {})
  {
    LiveFlows(acc, body);
    ReportsIffUsedLate(acc, Live(body));
    assert forall tag :: UsedLate(acc, body, tag) == UsedLate(acc, Live(body), tag);
  }

  // For every body: whether the rule reports is right exactly when pruning the dead statements, and
  // counting passed calls as reports, would not change it.
  lemma RightIff(acc: string, body: Stmt)
    ensures (Reports(acc, body) != {} <==> exists tag :: UsedLate(acc, body, tag)) <==>
            (Reports(acc, body) != {} <==> Reports(acc, Live(body)) != {} || Passed(acc, Live(body)) != {})
  {
    LateUseIffLiveReport(acc, body);
  }

  // And no way through a statement completes exactly when its live part always exits.
  lemma NeverCompletesIff(acc: string, s: Stmt)
    ensures (forall f :: f in Flows(acc, s) ==> f.exits) <==> AlwaysExits(Live(s))
  {
    LiveFlows(acc, s);
    AlwaysExitsMeansIt(acc, Live(s));
  }

  // ---------- where the rule is wrong ----------

  // accessor.get()
  function Get(acc: string): Stmt {
    ExprStmt(Call(1, Member(Ident(2, acc), None), []))
  }

  const RETURN := Return(None)
  const PAUSE := ExprStmt(Await(Leaf))

  lemma AlsoPlain(a: Walked, saw: bool)
    ensures Also(a, Plain(saw)) == a
    ensures Also(Plain(saw), a) == a.(saw := saw)
  {
  }

  lemma WalkGet(acc: string, saw: bool)
    ensures WalkStmt(acc, Get(acc), saw) == if saw then Plain(true).(reports := {1}) else Plain(false)
  {
    assert WalkExpr(acc, Get(acc).expr.callee, false, saw) == Plain(saw);
    assert WalkExprs(acc, [], true, saw) == Plain(saw);
    AlsoPlain(Plain(saw), saw);
  }

  lemma WalkPause(acc: string, saw: bool)
    ensures WalkStmt(acc, PAUSE, saw) == Plain(true) && !AlwaysExits(PAUSE)
  {
  }

  lemma LiveTwo(a: Stmt, b: Stmt)
    ensures LiveIn([a, b]) == if AlwaysExits(Live(a)) then [Live(a)] else [Live(a), Live(b)]
  {
    assert [a, b][1..] == [b] && [b][1..] == [];
    assert LiveIn([b]) == [Live(b)];
  }

  lemma WalkTwo(acc: string, a: Stmt, b: Stmt, saw: bool)
    ensures WalkStmts(acc, [a, b], saw) == Also(WalkStmt(acc, b, WalkStmt(acc, a, saw).saw), WalkStmt(acc, a, saw))
    ensures LiveIn([a, b]) == if AlwaysExits(Live(a)) then [Live(a)] else [Live(a), Live(b)]
  {
    LiveTwo(a, b);
    var w := WalkStmt(acc, a, saw);
    LastStmt(acc, [b], w.saw);
    assert [a, b][0] == a && [a, b][1..] == [b];
    assert WalkStmts(acc, [a, b], saw) == Also(WalkStmts(acc, [b], w.saw), w);
  }

  // What counts as a use, once an await was seen: a call of a method of the accessor, by name or key, and
  // the accessor as an argument; not the same on another object, nor the accessor anywhere else.
  lemma WhatIsReported(acc: string, other: string, f: Expr, key: Option<Expr>)
    requires other != acc && (f.Leaf? || f == Ident(9, other)) && (key == None || key == Some(Leaf))
    ensures WalkExpr(acc, Call(1, Member(Ident(2, acc), key), []), false, true).reports == {1}
    ensures WalkExpr(acc, Call(1, f, [Ident(3, acc)]), false, true).reports == {3}
    ensures WalkExpr(acc, Call(1, Member(Ident(2, other), key), [Ident(3, other)]), false, true).reports == {}
    ensures WalkExpr(acc, Member(Ident(2, acc), key), false, true).reports == {}
    ensures WalkExpr(acc, Children([Ident(3, acc)]), false, true).reports == {}
    ensures WalkExpr(acc, Call(1, f, [Member(Ident(3, acc), key)]), false, true).reports == {}
    ensures WalkExpr(acc, Call(1, Ident(2, acc), []), false, true).reports == {}
  {
    OneArg(acc, Ident(3, acc), true);
    OneArg(acc, Ident(3, acc), false);
    OneArg(acc, Ident(3, other), true);
    OneArg(acc, Member(Ident(3, acc), key), true);
    assert WalkExprs(acc, [], true, true) == Plain(true);
    assert WalkExpr(acc, f, false, true) == Plain(true);
    assert WalkExpr(acc, Member(Ident(3, acc), key), true, true).reports == {};
    AlsoPlain(Plain(true), true);
    assert WalkExpr(acc, Member(Ident(2, other), key), false, true) == Plain(true);
  }

  lemma OneArg(acc: string, e: Expr, isArg: bool)
    ensures WalkExprs(acc, [e], isArg, true).reports == WalkExpr(acc, e, isArg, true).reports
  {
    assert [e][1..] == [];
    AlsoPlain(WalkExpr(acc, e, isArg, true), true);
    assert WalkExprs(acc, [e], isArg, true).reports == WalkExpr(acc, e, isArg, true).reports + {};
  }

  // An awaited key is missed: accessor[await k]()
  lemma AwaitedKeyIsMissed(acc: string)
    ensures exists body :: NoDeadCode(body) && IsMissed(acc, body, 1)
  {
    var callee := Member(Ident(2, acc), Some(Await(Leaf)));
    AwaitedKeyPasses(acc, callee);
    PassedIsMissed(acc, ExprStmt(Call(1, callee, [])), 1);
  }

  // Used late, while nothing at all is reported.
  ghost predicate IsMissed(acc: string, body: Stmt, tag: Label) {
    Reports(acc, body) == {} && UsedLate(acc, body, tag)
  }

  lemma PassedIsMissed(acc: string, body: Stmt, tag: Label)
    requires NoDeadCode(body) && Reports(acc, body) == {} && tag in Passed(acc, body)
    ensures IsMissed(acc, body, tag)
  {
    NoFalseAlarms(acc, body, tag);
  }

  lemma AwaitedKeyPasses(acc: string, callee: Expr)
    requires callee == Member(Ident(2, acc), Some(Await(Leaf)))
    ensures WalkExpr(acc, Call(1, callee, []), false, false) == Plain(true).(passed := {1})
  {
    AlsoPlain(Plain(true), false);
    AlsoPlain(Plain(true), true);
    assert WalkExpr(acc, callee.base, false, false) == Plain(false);
    assert WalkExpr(acc, callee, false, false) == Plain(true);
    assert WalkExprs(acc, [], true, true) == Plain(true);
  }

  // Dead code is reported: return; { await x; accessor.get(); }
  lemma DeadCodeFalseAlarm(acc: string)
    ensures exists body :: Reports(acc, body) == {1} && !UsedLate(acc, body, 1)
  {
    var dead := Block([PAUSE, Get(acc)]);
    var body := Block([RETURN, dead]);
    WalkPause(acc, false);
    WalkGet(acc, true);
    WalkTwo(acc, PAUSE, Get(acc), false);
    AlsoPlain(Plain(true).(reports := {1}), true);
    WalkTwo(acc, RETURN, dead, false);
    AlsoPlain(Plain(true).(reports := {1}), false);
    assert Live(body) == Block([RETURN]);
    LastStmt(acc, [RETURN], false);
    LateUsesExactly(acc, body, 1);
  }

  // A dead await taints live code: if (c) { return; await x; } accessor.get();
  lemma DeadAwaitFalseAlarm(acc: string)
    ensures exists body: Stmt :: body.Block? && Get(acc) in LiveIn(body.body) &&
                                Reports(acc, body) == {1} && !UsedLate(acc, body, 1)
  {
    var get, branch := Get(acc), Block([RETURN, PAUSE]);
    var test := If(Leaf, branch, None);
    var body := Block([test, get]);
    WalkTaint(acc);
    WalkGet(acc, true);
    WalkGet(acc, false);
    WalkTwo(acc, test, get, false);
    AlsoPlain(Plain(true).(reports := {1}), true);
    assert Live(body) == Block([Live(test), get]);
    WalkTwo(acc, Live(test), get, false);
    AlsoPlain(Plain(false), false);
    LateUsesExactly(acc, body, 1);
    assert get in LiveIn(body.body);
  }

  // if (c) { return; await x; } sets the flag, and without its dead statement does not.
  lemma WalkTaint(acc: string)
    ensures var test := If(Leaf, Block([RETURN, PAUSE]), None);
            && WalkStmt(acc, test, false) == Plain(true) && !AlwaysExits(Live(test))
            && WalkStmt(acc, Live(test), false) == Plain(false)
  {
    var branch := Block([RETURN, PAUSE]);
    WalkPause(acc, false);
    WalkTwo(acc, RETURN, PAUSE, false);
    AlsoPlain(Plain(true), false);
    AlsoPlain(Plain(false), false);
    assert WalkStmt(acc, branch, false) == Plain(true) && !AlwaysExits(branch);
    assert Live(branch) == Block([RETURN]);
    LastStmt(acc, [RETURN], false);
    assert WalkStmt(acc, Live(branch), false) == Plain(false);
    assert Merge(Plain(true), Plain(false), false, false) == Plain(true);
    assert Merge(Plain(false), Plain(false), true, false) == Plain(false);
  }
}
