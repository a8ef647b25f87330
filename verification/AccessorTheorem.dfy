/**
 The accessor rule against the paths of a function body: what the walk reports, skips inside a
 reported call and goes past are together exactly the uses some path makes after an await, and
 without the last, those some path comes to after one.
 */
module AccessorTheorem {
  import opened Wrappers
  import opened AccessorSyntax

  // ---------- traces ----------

  lemma {:induction false} LateConcat(m: Moment, saw: bool, a: Trace, b: Trace)
    ensures Late(m, saw, a + b) == Late(m, saw, a) + Late(m, After(saw, a), b)
    ensures After(saw, a + b) == After(After(saw, a), b)
    decreases |a|
  {
    if a == [] {
      assert a + b == b;
    } else {
      assert (a + b)[1..] == a[1..] + b;
      LateConcat(m, saw || a[0] == Suspend, a[1..], b);
      assert a == [a[0]] + a[1..];
    }
  }

  lemma LateOne(m: Moment, saw: bool, event: Event)
    ensures Late(m, saw, [event]) == if saw && event.At? && event.moment == m then {event.tag} else {}
    ensures After(saw, [event]) == (saw || event == Suspend)
  {
    assert [event][1..] == [];
  }

  lemma {:induction false} LateMonotone(m: Moment, t: Trace)
    ensures Late(m, false, t) <= Late(m, true, t)
    decreases |t|
  {
    if t != [] {
      LateMonotone(m, t[1..]);
    }
  }

  // The traces agree with the flag and the uses found: no suspension or late use is overlooked,
  // and each is borne out by some trace.
  ghost predicate Agrees(m: Moment, traces: set<Trace>, saw: bool, out: bool, found: set<Label>) {
    && (forall t :: t in traces ==> (After(saw, t) ==> out) && Late(m, saw, t) <= found)
    && (exists t :: t in traces && After(saw, t) == out)
    && (forall tag :: tag in found ==> exists t :: t in traces && tag in Late(m, saw, t))
  }

  lemma CatSound(m: Moment, a: set<Trace>, b: set<Trace>, saw: bool, mid: bool, out: bool,
                 fa: set<Label>, fb: set<Label>,
                 t: Trace)
    requires Agrees(m, a, saw, mid, fa) && Agrees(m, b, mid, out, fb) && t in Cat(a, b)
    ensures (After(saw, t) ==> out) && Late(m, saw, t) <= fa + fb
  {
    var x, y :| x in a && y in b && t == x + y;
    LateConcat(m, saw, x, y);
    LateMonotone(m, y);
  }

  lemma CatAgrees(m: Moment, a: set<Trace>, b: set<Trace>, saw: bool, mid: bool, out: bool,
                  fa: set<Label>, fb: set<Label>)
    requires Agrees(m, a, saw, mid, fa) && Agrees(m, b, mid, out, fb)
    ensures Agrees(m, Cat(a, b), saw, out, fa + fb)
  {
    forall t | t in Cat(a, b) ensures (After(saw, t) ==> out) && Late(m, saw, t) <= fa + fb {
      CatSound(m, a, b, saw, mid, out, fa, fb, t);
    }
    var ta :| ta in a && After(saw, ta) == mid;
    var tb :| tb in b && After(mid, tb) == out;
    LateConcat(m, saw, ta, tb);
    assert ta + tb in Cat(a, b) && After(saw, ta + tb) == out;
    forall tag | tag in fa + fb ensures exists t :: t in Cat(a, b) && tag in Late(m, saw, t) {
      if tag in fa {
        var x :| x in a && tag in Late(m, saw, x);
        LateConcat(m, saw, x, tb);
        assert x + tb in Cat(a, b);
      } else {
        var y :| y in b && tag in Late(m, mid, y);
        LateConcat(m, saw, ta, y);
        assert ta + y in Cat(a, b);
      }
    }
  }

  lemma JoinAgrees(m: Moment, a: set<Trace>, b: set<Trace>, saw: bool, outA: bool, outB: bool,
                   fa: set<Label>, fb: set<Label>)
    requires Agrees(m, a, saw, outA, fa) && Agrees(m, b, saw, outB, fb)
    ensures Agrees(m, a + b, saw, outA || outB, fa + fb)
  {
    var ta :| ta in a && After(saw, ta) == outA;
    var tb :| tb in b && After(saw, tb) == outB;
    var t := if outA then ta else tb;
    assert t in a + b && After(saw, t) == (outA || outB);
    forall tag | tag in fa + fb ensures exists t :: t in a + b && tag in Late(m, saw, t) {
      if tag in fa {
        var x :| x in a && tag in Late(m, saw, x);
        assert x in a + b;
      } else {
        var y :| y in b && tag in Late(m, saw, y);
        assert y in a + b;
      }
    }
  }

  // The right operand may be skipped.
  lemma SkipAgrees(m: Moment, b: set<Trace>, saw: bool, out: bool, found: set<Label>)
    requires Agrees(m, b, saw, out, found)
    ensures Agrees(m, b + {[]}, saw, out, found)
  {
    var tb :| tb in b && After(saw, tb) == out;
    assert tb in b + {[]};
    forall tag | tag in found ensures exists t :: t in b + {[]} && tag in Late(m, saw, t) {
      var y :| y in b && tag in Late(m, saw, y);
      assert y in b + {[]};
    }
    assert After(saw, tb) <== saw;
  }

  lemma One(m: Moment, t: Trace, saw: bool)
    ensures Agrees(m, {t}, saw, After(saw, t), Late(m, saw, t))
  {
    assert t in {t};
  }

  lemma FoundAlso(m: Moment, a: Walked, b: Walked)
    ensures Found(m, Also(b, a)) == Found(m, a) + Found(m, b)
  {
  }

  lemma FoundJoin(m: Moment, a: Walked, b: Walked)
    ensures Found(m, Join(a, b)) == Found(m, a) + Found(m, b)
  {
  }

  lemma FoundInCall(m: Moment, acc: string, e: Expr, saw: bool, a: Walked, b: Walked)
    requires e.Call? && (saw ==> a.saw && a.passed == {} && b.passed == {})
    ensures Found(m, if IsMemberCall(acc, e) && saw then Reported(e.tag, saw, Also(b, a)) else Passing(acc, e, a, b)) ==
            InCall(m, acc, e, Entering, saw) + (Found(m, a) + (InCall(m, acc, e, Using, a.saw) + Found(m, b)))
  {
    FoundAlso(m, a, b);
  }

  // What the event of a call adds to the late uses.
  function InCall(m: Moment, acc: string, e: Expr, event: Moment, saw: bool): set<Label>
    requires e.Call?
  {
    if IsMemberCall(acc, e) && saw && m == event then {e.tag} else {}
  }

  // ---------- expressions ----------

  ghost predicate ExprOk(m: Moment, acc: string, e: Expr, isArg: bool, saw: bool) {
    var w := WalkExpr(acc, e, isArg, saw);
    Agrees(m, Traces(acc, e, isArg), saw, w.saw, Found(m, w))
  }

  ghost predicate ExprsOk(m: Moment, acc: string, es: seq<Expr>, isArg: bool, saw: bool) {
    var w := WalkExprs(acc, es, isArg, saw);
    Agrees(m, TracesOf(acc, es, isArg), saw, w.saw, Found(m, w))
  }

  // Once the flag is up it stays up, and no call is passed.
  lemma {:induction false} FlagUp(acc: string, e: Expr, isArg: bool)
    ensures var w := WalkExpr(acc, e, isArg, true); w.saw && w.passed == {}
    decreases e
  {
    match e
    case Leaf =>
    case Ident(_, _) =>
    case Await(argument) => FlagUp(acc, argument, false);
    case Call(_, callee, args) => FlagUp(acc, callee, false); FlagUpAll(acc, args, true);
    case Member(base, computed) =>
      FlagUp(acc, base, false);
      if computed.Some? { FlagUp(acc, computed.value, false); }
    case Conditional(test, consequent, alternate) =>
      FlagUp(acc, test, false); FlagUp(acc, consequent, false); FlagUp(acc, alternate, false);
    case Logical(left, right) => FlagUp(acc, left, false); FlagUp(acc, right, false);
    case Children(exprs) => FlagUpAll(acc, exprs, false);
  }

  lemma {:induction false} FlagUpAll(acc: string, es: seq<Expr>, isArg: bool)
    ensures var w := WalkExprs(acc, es, isArg, true); w.saw && w.passed == {}
    decreases es
  {
    if es != [] {
      FlagUp(acc, es[0], isArg);
      FlagUpAll(acc, es[1..], isArg);
    }
  }

  lemma CallFound(m: Moment, acc: string, e: Expr, isArg: bool, saw: bool)
    requires e.Call?
    ensures var a := WalkExpr(acc, e.callee, false, saw);
            var b := WalkExprs(acc, e.args, true, a.saw);
            var w := WalkExpr(acc, e, isArg, saw);
            && w.saw == b.saw
            && Found(m, w) ==
               InCall(m, acc, e, Entering, saw) + (Found(m, a) + (InCall(m, acc, e, Using, a.saw) + Found(m, b)))
  {
    var a := WalkExpr(acc, e.callee, false, saw);
    var b := WalkExprs(acc, e.args, true, a.saw);
    if saw {
      FlagUp(acc, e.callee, false);
      FlagUpAll(acc, e.args, true);
    }
    FoundInCall(m, acc, e, saw, a, b);
  }

  lemma EventAgrees(m: Moment, acc: string, e: Expr, event: Moment, saw: bool)
    requires e.Call?
    ensures Agrees(m, {MemberEvent(acc, e, event)}, saw, saw, InCall(m, acc, e, event, saw))
  {
    var t := MemberEvent(acc, e, event);
    if IsMemberCall(acc, e) {
      LateOne(m, saw, At(event, e.tag));
    }
    assert Late(m, saw, t) == InCall(m, acc, e, event, saw) && After(saw, t) == saw;
    One(m, t, saw);
  }

  lemma CallAgrees(m: Moment, acc: string, e: Expr, isArg: bool, saw: bool)
    requires e.Call? && ExprOk(m, acc, e.callee, false, saw)
    requires ExprsOk(m, acc, e.args, true, WalkExpr(acc, e.callee, false, saw).saw)
    ensures ExprOk(m, acc, e, isArg, saw)
  {
    var a := WalkExpr(acc, e.callee, false, saw);
    var b := WalkExprs(acc, e.args, true, a.saw);
    var fe, fu := InCall(m, acc, e, Entering, saw), InCall(m, acc, e, Using, a.saw);
    EventAgrees(m, acc, e, Entering, saw);
    EventAgrees(m, acc, e, Using, a.saw);
    FourAgree(m, {MemberEvent(acc, e, Entering)}, Traces(acc, e.callee, false), {MemberEvent(acc, e, Using)},
              TracesOf(acc, e.args, true), saw, a.saw, b.saw, fe, Found(m, a), fu, Found(m, b));
    CallFound(m, acc, e, isArg, saw);
    CallTraces(acc, e, isArg);
  }

  lemma CallTraces(acc: string, e: Expr, isArg: bool)
    requires e.Call?
    ensures Traces(acc, e, isArg) ==
            Cat({MemberEvent(acc, e, Entering)},
                Cat(Traces(acc, e.callee, false), Cat({MemberEvent(acc, e, Using)}, TracesOf(acc, e.args, true))))
  {
  }

  // Four pieces in a row, the first and third of which do not suspend.
  lemma FourAgree(m: Moment, a: set<Trace>, b: set<Trace>, c: set<Trace>, d: set<Trace>,
                  saw: bool, mid: bool, out: bool, fa: set<Label>, fb: set<Label>, fc: set<Label>, fd: set<Label>)
    requires Agrees(m, a, saw, saw, fa) && Agrees(m, b, saw, mid, fb)
    requires Agrees(m, c, mid, mid, fc) && Agrees(m, d, mid, out, fd)
    ensures Agrees(m, Cat(a, Cat(b, Cat(c, d))), saw, out, fa + (fb + (fc + fd)))
  {
    CatAgrees(m, c, d, mid, mid, out, fc, fd);
    CatAgrees(m, b, Cat(c, d), saw, mid, out, fb, fc + fd);
    CatAgrees(m, a, Cat(b, Cat(c, d)), saw, saw, out, fa, fb + (fc + fd));
  }

  lemma SimpleAgrees(m: Moment, acc: string, e: Expr, isArg: bool, saw: bool)
    requires e.Leaf? || e.Ident?
    ensures ExprOk(m, acc, e, isArg, saw)
  {
    var t: Trace := if IsPassed(acc, e, isArg) then [At(Entering, e.tag), At(Using, e.tag)] else [];
    One(m, t, saw);
    if IsPassed(acc, e, isArg) {
      LateOne(m, saw, At(Entering, e.tag));
      LateOne(m, saw, At(Using, e.tag));
      LateConcat(m, saw, [At(Entering, e.tag)], [At(Using, e.tag)]);
      assert [At(Entering, e.tag)] + [At(Using, e.tag)] == t;
    }
    assert Late(m, saw, t) == Found(m, WalkExpr(acc, e, isArg, saw));
  }

  lemma AwaitUnfolds(acc: string, e: Expr, isArg: bool, saw: bool)
    requires e.Await?
    ensures Traces(acc, e, isArg) == Cat(Traces(acc, e.argument, false), {[Suspend]})
    ensures var a, w := WalkExpr(acc, e.argument, false, saw), WalkExpr(acc, e, isArg, saw);
            w.saw && forall m :: Found(m, w) == Found(m, a) + {}
  {
  }

  lemma AwaitAgrees(m: Moment, acc: string, e: Expr, isArg: bool, saw: bool)
    requires e.Await? && ExprOk(m, acc, e.argument, false, saw)
    ensures ExprOk(m, acc, e, isArg, saw)
  {
    var a := WalkExpr(acc, e.argument, false, saw);
    One(m, [Suspend], a.saw);
    LateOne(m, a.saw, Suspend);
    AwaitUnfolds(acc, e, isArg, saw);
    CatAgrees(m, Traces(acc, e.argument, false), {[Suspend]}, saw, a.saw, true, Found(m, a), {});
  }

  lemma {:induction false} ExprAgrees(m: Moment, acc: string, e: Expr, isArg: bool, saw: bool)
    ensures ExprOk(m, acc, e, isArg, saw)
    decreases e
  {
    match e
    case Leaf => SimpleAgrees(m, acc, e, isArg, saw);
    case Ident(_, _) => SimpleAgrees(m, acc, e, isArg, saw);
    case Await(argument) =>
      ExprAgrees(m, acc, argument, false, saw);
      AwaitAgrees(m, acc, e, isArg, saw);
    case Call(_, callee, args) =>
      ExprAgrees(m, acc, callee, false, saw);
      ExprsAgree(m, acc, args, true, WalkExpr(acc, callee, false, saw).saw);
      CallAgrees(m, acc, e, isArg, saw);
    case Member(base, computed) =>
      ExprAgrees(m, acc, base, false, saw);
      if computed.Some? {
        ExprAgrees(m, acc, computed.value, false, WalkExpr(acc, base, false, saw).saw);
        MemberAgrees(m, acc, e, isArg, saw);
      }
    case Conditional(test, consequent, alternate) =>
      ExprAgrees(m, acc, test, false, saw);
      var a := WalkExpr(acc, test, false, saw);
      ExprAgrees(m, acc, consequent, false, a.saw);
      ExprAgrees(m, acc, alternate, false, a.saw);
      ConditionalAgrees(m, acc, e, isArg, saw);
    case Logical(left, right) =>
      ExprAgrees(m, acc, left, false, saw);
      ExprAgrees(m, acc, right, false, WalkExpr(acc, left, false, saw).saw);
      LogicalAgrees(m, acc, e, isArg, saw);
    case Children(exprs) => ExprsAgree(m, acc, exprs, false, saw);
  }

  lemma MemberAgrees(m: Moment, acc: string, e: Expr, isArg: bool, saw: bool)
    requires e.Member? && e.computed.Some? && ExprOk(m, acc, e.base, false, saw)
    requires ExprOk(m, acc, e.computed.value, false, WalkExpr(acc, e.base, false, saw).saw)
    ensures ExprOk(m, acc, e, isArg, saw)
  {
    var a := WalkExpr(acc, e.base, false, saw);
    var b := WalkExpr(acc, e.computed.value, false, a.saw);
    CatAgrees(m, Traces(acc, e.base, false), Traces(acc, e.computed.value, false), saw, a.saw, b.saw,
              Found(m, a), Found(m, b));
    FoundAlso(m, a, b);
    assert Traces(acc, e, isArg) == Cat(Traces(acc, e.base, false), Traces(acc, e.computed.value, false));
  }

  lemma LogicalAgrees(m: Moment, acc: string, e: Expr, isArg: bool, saw: bool)
    requires e.Logical? && ExprOk(m, acc, e.left, false, saw)
    requires ExprOk(m, acc, e.right, false, WalkExpr(acc, e.left, false, saw).saw)
    ensures ExprOk(m, acc, e, isArg, saw)
  {
    var a := WalkExpr(acc, e.left, false, saw);
    var b := WalkExpr(acc, e.right, false, a.saw);
    SkipAgrees(m, Traces(acc, e.right, false), a.saw, b.saw, Found(m, b));
    CatAgrees(m, Traces(acc, e.left, false), Traces(acc, e.right, false) + {[]}, saw, a.saw, b.saw,
              Found(m, a), Found(m, b));
    FoundAlso(m, a, b);
  }

  lemma ConditionalAgrees(m: Moment, acc: string, e: Expr, isArg: bool, saw: bool)
    requires e.Conditional? && ExprOk(m, acc, e.test, false, saw)
    requires var s := WalkExpr(acc, e.test, false, saw).saw;
             ExprOk(m, acc, e.consequent, false, s) && ExprOk(m, acc, e.alternate, false, s)
    ensures ExprOk(m, acc, e, isArg, saw)
  {
    var a := WalkExpr(acc, e.test, false, saw);
    var b, c := WalkExpr(acc, e.consequent, false, a.saw), WalkExpr(acc, e.alternate, false, a.saw);
    var tb, tc := Traces(acc, e.consequent, false), Traces(acc, e.alternate, false);
    JoinAgrees(m, tb, tc, a.saw, b.saw, c.saw, Found(m, b), Found(m, c));
    CatAgrees(m, Traces(acc, e.test, false), tb + tc, saw, a.saw, b.saw || c.saw,
              Found(m, a), Found(m, b) + Found(m, c));
    FoundJoin(m, b, c);
    FoundAlso(m, a, Join(b, c));
    assert Traces(acc, e, isArg) == Cat(Traces(acc, e.test, false), tb + tc);
  }

  lemma {:induction false} ExprsAgree(m: Moment, acc: string, es: seq<Expr>, isArg: bool, saw: bool)
    ensures ExprsOk(m, acc, es, isArg, saw)
    decreases es
  {
    if es == [] {
      One(m, [], saw);
    } else {
      var a := WalkExpr(acc, es[0], isArg, saw);
      var b := WalkExprs(acc, es[1..], isArg, a.saw);
      ExprAgrees(m, acc, es[0], isArg, saw);
      ExprsAgree(m, acc, es[1..], isArg, a.saw);
      CatAgrees(m, Traces(acc, es[0], isArg), TracesOf(acc, es[1..], isArg), saw, a.saw, b.saw,
                Found(m, a), Found(m, b));
      FoundAlso(m, a, b);
    }
  }

  // ---------- statements ----------

  // The walk misses nothing; and a statement taken to always exit never completes.
  ghost predicate Sound(m: Moment, flows: set<Flow>, saw: bool, out: bool, exits: bool, found: set<Label>) {
    forall f :: f in flows ==>
      Late(m, saw, f.trace) <= found && (!f.exits ==> !exits && (After(saw, f.trace) ==> out))
  }

  // Everything the walk says is borne out by some way through the statement.
  ghost predicate Exact(m: Moment, flows: set<Flow>, saw: bool, out: bool, exits: bool, found: set<Label>) {
    && (exists f :: f in flows)
    && (!exits ==> exists f :: f in flows && !f.exits && After(saw, f.trace) == out)
    && (forall tag :: tag in found ==> exists f :: f in flows && tag in Late(m, saw, f.trace))
  }

  lemma FlowingAgrees(m: Moment, traces: set<Trace>, saw: bool, out: bool, exits: bool, found: set<Label>)
    requires Agrees(m, traces, saw, out, found)
    ensures Sound(m, Flowing(traces, exits), saw, out, exits, found)
    ensures Exact(m, Flowing(traces, exits), saw, out, exits, found)
  {
    var t0 :| t0 in traces && After(saw, t0) == out;
    assert Flow(t0, exits) in Flowing(traces, exits);
    forall tag | tag in found ensures exists f :: f in Flowing(traces, exits) && tag in Late(m, saw, f.trace) {
      var t :| t in traces && tag in Late(m, saw, t);
      assert Flow(t, exits) in Flowing(traces, exits);
    }
  }

  lemma ThenSound(m: Moment, a: set<Flow>, b: set<Flow>, saw: bool, mid: bool, out: bool, ea: bool, eb: bool,
                  fa: set<Label>, fb: set<Label>)
    requires Sound(m, a, saw, mid, ea, fa) && Sound(m, b, mid, out, eb, fb)
    ensures Sound(m, Then(a, b), saw, out, eb, fa + fb)
  {
    forall h | h in Then(a, b)
      ensures Late(m, saw, h.trace) <= fa + fb && (!h.exits ==> !eb && (After(saw, h.trace) ==> out))
    {
      if !(h in a && h.exits) {
        var f, g :| f in a && !f.exits && g in b && h == Flow(f.trace + g.trace, g.exits);
        LateConcat(m, saw, f.trace, g.trace);
        LateMonotone(m, g.trace);
      }
    }
  }

  // A late use on a way through `a` stays late however the way goes on through `b`.
  lemma LateFirst(m: Moment, a: set<Flow>, b: set<Flow>, saw: bool, f: Flow, g: Flow, tag: Label)
    requires f in a && g in b && tag in Late(m, saw, f.trace)
    ensures exists h :: h in Then(a, b) && tag in Late(m, saw, h.trace)
  {
    LateConcat(m, saw, f.trace, g.trace);
    var h := if f.exits then f else Flow(f.trace + g.trace, g.exits);
    assert h in Then(a, b);
  }

  // A late use on a way through `b` is late behind any way through `a` that leaves the flag as it was.
  lemma LateSecond(m: Moment, a: set<Flow>, b: set<Flow>, saw: bool, f: Flow, g: Flow, tag: Label)
    requires f in a && !f.exits && g in b && tag in Late(m, After(saw, f.trace), g.trace)
    ensures exists h :: h in Then(a, b) && tag in Late(m, saw, h.trace)
  {
    LateConcat(m, saw, f.trace, g.trace);
    assert Flow(f.trace + g.trace, g.exits) in Then(a, b);
  }

  lemma ThenExact(m: Moment, a: set<Flow>, b: set<Flow>, saw: bool, mid: bool, out: bool, eb: bool,
                  fa: set<Label>, fb: set<Label>)
    requires Exact(m, a, saw, mid, false, fa) && Exact(m, b, mid, out, eb, fb)
    ensures Exact(m, Then(a, b), saw, out, eb, fa + fb)
  {
    var both := Then(a, b);
    var f0 :| f0 in a && !f0.exits && After(saw, f0.trace) == mid;
    var g0 :| g0 in b && (!eb ==> !g0.exits && After(mid, g0.trace) == out);
    var h0 := Flow(f0.trace + g0.trace, g0.exits);
    LateConcat(m, saw, f0.trace, g0.trace);
    assert h0 in both;
    forall tag | tag in fa + fb ensures exists h :: h in both && tag in Late(m, saw, h.trace) {
      if tag in fa {
        var f :| f in a && tag in Late(m, saw, f.trace);
        LateFirst(m, a, b, saw, f, g0, tag);
      } else {
        var g :| g in b && tag in Late(m, mid, g.trace);
        LateSecond(m, a, b, saw, f0, g, tag);
      }
    }
  }

  // What the walk's flag is after an `if`.
  function MergedSaw(t: bool, f: bool, te: bool, fe: bool): bool {
    Merge(Plain(t), Plain(f), te, fe).saw
  }

  lemma MergeExact(m: Moment, a: set<Flow>, b: set<Flow>, saw: bool, t: bool, f: bool, te: bool, fe: bool,
                   fa: set<Label>, fb: set<Label>)
    requires Exact(m, a, saw, t, te, fa) && Exact(m, b, saw, f, fe, fb)
    ensures Exact(m, a + b, saw, MergedSaw(t, f, te, fe), te && fe, fa + fb)
  {
    var x :| x in a && (!te ==> !x.exits && After(saw, x.trace) == t);
    var y :| y in b && (!fe ==> !y.exits && After(saw, y.trace) == f);
    assert x in a + b && y in a + b;
    forall tag | tag in fa + fb ensures exists h :: h in a + b && tag in Late(m, saw, h.trace) {
      if tag in fa {
        var h :| h in a && tag in Late(m, saw, h.trace);
        assert h in a + b;
      } else {
        var h :| h in b && tag in Late(m, saw, h.trace);
        assert h in a + b;
      }
    }
  }

  lemma NothingAfter(a: set<Flow>)
    ensures Then(a, {Flow([], false)}) == a
  {
    forall f ensures f in Then(a, {Flow([], false)}) <==> f in a {
      assert f.trace + [] == f.trace;
      if f in a && !f.exits {
        assert Flow([], false) in {Flow([], false)};
        assert f == Flow(f.trace + Flow([], false).trace, Flow([], false).exits);
      }
      if f in Then(a, {Flow([], false)}) && !(f in a && f.exits) {
        var x, y :| x in a && !x.exits && y in {Flow([], false)} && f == Flow(x.trace + y.trace, y.exits);
        assert x.trace + y.trace == x.trace;
      }
    }
  }

  ghost predicate StmtSoundAt(m: Moment, acc: string, s: Stmt, saw: bool) {
    var w := WalkStmt(acc, s, saw);
    Sound(m, Flows(acc, s), saw, w.saw, AlwaysExits(s), Found(m, w))
  }

  ghost predicate StmtExactAt(m: Moment, acc: string, s: Stmt, saw: bool) {
    var w := WalkStmt(acc, s, saw);
    Exact(m, Flows(acc, s), saw, w.saw, AlwaysExits(s), Found(m, w))
  }

  // Statements that only evaluate an expression, or nothing.
  predicate IsSimple(s: Stmt) {
    !s.Block? && !s.If?
  }

  lemma SimpleStmt(m: Moment, acc: string, s: Stmt, saw: bool)
    requires IsSimple(s)
    ensures StmtSoundAt(m, acc, s, saw) && StmtExactAt(m, acc, s, saw)
  {
    var w, e := WalkStmt(acc, s, saw), AlwaysExits(s);
    match s
    case ExprStmt(expr) =>
      ExprAgrees(m, acc, expr, false, saw);
      FlowingAgrees(m, Traces(acc, expr, false), saw, w.saw, e, Found(m, w));
    case Declaration(inits) =>
      ExprsAgree(m, acc, inits, false, saw);
      FlowingAgrees(m, TracesOf(acc, inits, false), saw, w.saw, e, Found(m, w));
    case Throw(error) =>
      ExprAgrees(m, acc, error, false, saw);
      FlowingAgrees(m, Traces(acc, error, false), saw, w.saw, e, Found(m, w));
    case Return(Some(result)) =>
      ExprAgrees(m, acc, result, false, saw);
      FlowingAgrees(m, Traces(acc, result, false), saw, w.saw, e, Found(m, w));
    case Return(None) => assert Flow([], e) in Flows(acc, s) && Found(m, w) == {};
    case EmptyStmt => assert Flow([], e) in Flows(acc, s) && Found(m, w) == {};
  }

  function WalkElse(acc: string, els: Option<Stmt>, saw: bool): Walked {
    if els.None? then Plain(saw) else WalkStmt(acc, els.value, saw)
  }

  ghost function FlowsElse(acc: string, els: Option<Stmt>): set<Flow> {
    if els.None? then {Flow([], false)} else Flows(acc, els.value)
  }

  predicate ElseExits(els: Option<Stmt>) {
    els.Some? && AlwaysExits(els.value)
  }

  ghost predicate ElseSoundAt(m: Moment, acc: string, els: Option<Stmt>, saw: bool) {
    var w := WalkElse(acc, els, saw);
    Sound(m, FlowsElse(acc, els), saw, w.saw, ElseExits(els), Found(m, w))
  }

  ghost predicate ElseExactAt(m: Moment, acc: string, els: Option<Stmt>, saw: bool) {
    var w := WalkElse(acc, els, saw);
    Exact(m, FlowsElse(acc, els), saw, w.saw, ElseExits(els), Found(m, w))
  }

  lemma NoElse(m: Moment, acc: string, saw: bool)
    ensures ElseSoundAt(m, acc, None, saw) && ElseExactAt(m, acc, None, saw)
  {
    assert Flow([], false) in FlowsElse(acc, None);
  }

  lemma IfUnfolds(m: Moment, acc: string, s: Stmt, saw: bool)
    requires s.If?
    ensures var a := WalkExpr(acc, s.cond, false, saw);
            var t, f := WalkStmt(acc, s.thn, a.saw), WalkElse(acc, s.els, a.saw);
            var w := WalkStmt(acc, s, saw);
            && w.saw == MergedSaw(t.saw, f.saw, AlwaysExits(s.thn), ElseExits(s.els))
            && Found(m, w) == Found(m, a) + (Found(m, t) + Found(m, f))
            && Flows(acc, s) == Then(Flowing(Traces(acc, s.cond, false), false), Flows(acc, s.thn) +
                FlowsElse(acc, s.els))
            && (AlwaysExits(s) <==> AlwaysExits(s.thn) && ElseExits(s.els))
  {
    var a := WalkExpr(acc, s.cond, false, saw);
    var t, f := WalkStmt(acc, s.thn, a.saw), WalkElse(acc, s.els, a.saw);
    FoundAlso(m, t, f);
    FoundAlso(m, a, Merge(t, f, AlwaysExits(s.thn), ElseExits(s.els)));
  }

  lemma IfSound(m: Moment, acc: string, s: Stmt, saw: bool)
    requires s.If? && StmtSoundAt(m, acc, s.thn, WalkExpr(acc, s.cond, false, saw).saw)
    requires ElseSoundAt(m, acc, s.els, WalkExpr(acc, s.cond, false, saw).saw)
    ensures StmtSoundAt(m, acc, s, saw)
  {
    var a, tests := WalkExpr(acc, s.cond, false, saw), Flowing(Traces(acc, s.cond, false), false);
    var t, f := WalkStmt(acc, s.thn, a.saw), WalkElse(acc, s.els, a.saw);
    var te, fe := AlwaysExits(s.thn), ElseExits(s.els);
    ExprAgrees(m, acc, s.cond, false, saw);
    FlowingAgrees(m, Traces(acc, s.cond, false), saw, a.saw, false, Found(m, a));
    var branches, out := Flows(acc, s.thn) + FlowsElse(acc, s.els), MergedSaw(t.saw, f.saw, te, fe);
    assert Sound(m, branches, a.saw, out, te && fe, Found(m, t) + Found(m, f));
    ThenSound(m, tests, branches, saw, a.saw, out, false, te && fe, Found(m, a), Found(m, t) + Found(m, f));
    IfUnfolds(m, acc, s, saw);
  }

  lemma IfExact(m: Moment, acc: string, s: Stmt, saw: bool)
    requires s.If? && StmtExactAt(m, acc, s.thn, WalkExpr(acc, s.cond, false, saw).saw)
    requires ElseExactAt(m, acc, s.els, WalkExpr(acc, s.cond, false, saw).saw)
    ensures StmtExactAt(m, acc, s, saw)
  {
    var a, tests := WalkExpr(acc, s.cond, false, saw), Flowing(Traces(acc, s.cond, false), false);
    var t, f := WalkStmt(acc, s.thn, a.saw), WalkElse(acc, s.els, a.saw);
    var te, fe := AlwaysExits(s.thn), ElseExits(s.els);
    ExprAgrees(m, acc, s.cond, false, saw);
    FlowingAgrees(m, Traces(acc, s.cond, false), saw, a.saw, false, Found(m, a));
    var branches, out := Flows(acc, s.thn) + FlowsElse(acc, s.els), MergedSaw(t.saw, f.saw, te, fe);
    MergeExact(m, Flows(acc, s.thn), FlowsElse(acc, s.els), a.saw, t.saw, f.saw, te, fe, Found(m, t), Found(m, f));
    ThenExact(m, tests, branches, saw, a.saw, out, te && fe, Found(m, a), Found(m, t) + Found(m, f));
    IfUnfolds(m, acc, s, saw);
  }

  lemma {:induction false} StmtSound(m: Moment, acc: string, s: Stmt, saw: bool)
    ensures StmtSoundAt(m, acc, s, saw)
    decreases s
  {
    match s
    case Block(body) => StmtsSound(m, acc, body, saw);
    case If(cond, thn, els) =>
      var after := WalkExpr(acc, cond, false, saw).saw;
      StmtSound(m, acc, thn, after);
      if els.Some? { StmtSound(m, acc, els.value, after); } else { NoElse(m, acc, after); }
      IfSound(m, acc, s, saw);
    case _ => SimpleStmt(m, acc, s, saw);
  }

  predicate ListExits(ss: seq<Stmt>) {
    |ss| > 0 && AlwaysExits(ss[|ss| - 1])
  }

  lemma LastStmt(acc: string, ss: seq<Stmt>, saw: bool)
    requires |ss| == 1
    ensures FlowsOf(acc, ss) == Flows(acc, ss[0])
    ensures WalkStmts(acc, ss, saw) == WalkStmt(acc, ss[0], saw)
  {
    assert ss[1..] == [];
    NothingAfter(Flows(acc, ss[0]));
    var a := WalkStmt(acc, ss[0], saw);
    assert WalkStmts(acc, ss[1..], a.saw) == Plain(a.saw);
  }

  lemma StmtsUnfold(m: Moment, acc: string, ss: seq<Stmt>, saw: bool)
    requires |ss| > 1
    ensures FlowsOf(acc, ss) == Then(Flows(acc, ss[0]), FlowsOf(acc, ss[1..])) && ListExits(ss) == ListExits(ss[1..])
    ensures var a := WalkStmt(acc, ss[0], saw);
            var b, w := WalkStmts(acc, ss[1..], a.saw), WalkStmts(acc, ss, saw);
            w.saw == b.saw && Found(m, w) == Found(m, a) + Found(m, b)
  {
    var a := WalkStmt(acc, ss[0], saw);
    FoundAlso(m, a, WalkStmts(acc, ss[1..], a.saw));
  }

  lemma {:induction false} StmtsSound(m: Moment, acc: string, ss: seq<Stmt>, saw: bool)
    ensures var w := WalkStmts(acc, ss, saw); Sound(m, FlowsOf(acc, ss), saw, w.saw, ListExits(ss), Found(m, w))
    decreases ss
  {
    if |ss| == 1 {
      StmtSound(m, acc, ss[0], saw);
      LastStmt(acc, ss, saw);
    } else if ss != [] {
      var a := WalkStmt(acc, ss[0], saw);
      var b := WalkStmts(acc, ss[1..], a.saw);
      StmtSound(m, acc, ss[0], saw);
      StmtsSound(m, acc, ss[1..], a.saw);
      ThenSound(m, Flows(acc, ss[0]), FlowsOf(acc, ss[1..]), saw, a.saw, b.saw,
                AlwaysExits(ss[0]), ListExits(ss[1..]), Found(m, a), Found(m, b));
      StmtsUnfold(m, acc, ss, saw);
    }
  }

  // No statement follows one that always exits.
  predicate NoDeadCode(s: Stmt)
    decreases s
  {
    match s
    case Block(body) => NoDeadCodeIn(body)
    case If(_, thn, els) => NoDeadCode(thn) && (els.Some? ==> NoDeadCode(els.value))
    case _ => true
  }

  predicate NoDeadCodeIn(ss: seq<Stmt>)
    decreases ss
  {
    ss == [] || (NoDeadCode(ss[0]) && NoDeadCodeIn(ss[1..]) && (|ss| > 1 ==> !AlwaysExits(ss[0])))
  }

  lemma {:induction false} StmtExact(m: Moment, acc: string, s: Stmt, saw: bool)
    requires NoDeadCode(s)
    ensures StmtExactAt(m, acc, s, saw)
    decreases s
  {
    match s
    case Block(body) => StmtsExact(m, acc, body, saw);
    case If(cond, thn, els) =>
      var after := WalkExpr(acc, cond, false, saw).saw;
      StmtExact(m, acc, thn, after);
      if els.Some? { StmtExact(m, acc, els.value, after); } else { NoElse(m, acc, after); }
      IfExact(m, acc, s, saw);
    case _ => SimpleStmt(m, acc, s, saw);
  }

  lemma {:induction false} StmtsExact(m: Moment, acc: string, ss: seq<Stmt>, saw: bool)
    requires NoDeadCodeIn(ss)
    ensures var w := WalkStmts(acc, ss, saw); Exact(m, FlowsOf(acc, ss), saw, w.saw, ListExits(ss), Found(m, w))
    decreases ss
  {
    if ss == [] {
      assert Flow([], false) in FlowsOf(acc, ss);
    } else if |ss| == 1 {
      StmtExact(m, acc, ss[0], saw);
      LastStmt(acc, ss, saw);
    } else {
      var a := WalkStmt(acc, ss[0], saw);
      var b := WalkStmts(acc, ss[1..], a.saw);
      StmtExact(m, acc, ss[0], saw);
      StmtsExact(m, acc, ss[1..], a.saw);
      ThenExact(m, Flows(acc, ss[0]), FlowsOf(acc, ss[1..]), saw, a.saw, b.saw, ListExits(ss[1..]),
                Found(m, a), Found(m, b));
      StmtsUnfold(m, acc, ss, saw);
    }
  }
}
