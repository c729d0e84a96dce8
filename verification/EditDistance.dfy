/** Edit scripts between two words, and the least cost of one.

    The distance is defined by the recurrence on last characters; the rest of the
    module shows what it means: it is the cost of a cheapest edit script, it is a
    metric, and removing the first characters changes it by at most one. */
module EditDistance {

  // ---------- Edit scripts ----------

  datatype Edit = Keep(c: char) | Replace(from: char, to: char) | Delete(from: char) | Insert(to: char)

  type Script = seq<Edit>

  function Before(e: Edit): string {
    match e
    case Keep(c) => [c]
    case Replace(x, _) => [x]
    case Delete(x) => [x]
    case Insert(_) => []
  }

  function After(e: Edit): string {
    match e
    case Keep(c) => [c]
    case Replace(_, y) => [y]
    case Delete(_) => []
    case Insert(y) => [y]
  }

  // The word a script reads
  function Source(es: Script): string {
    if es == [] then [] else Source(es[..|es| - 1]) + Before(es[|es| - 1])
  }

  // The word a script writes
  function Target(es: Script): string {
    if es == [] then [] else Target(es[..|es| - 1]) + After(es[|es| - 1])
  }

  // Every edit but Keep costs one
  function Cost(es: Script): nat {
    if es == [] then 0 else Cost(es[..|es| - 1]) + if es[|es| - 1].Keep? then 0 else 1
  }

  ghost predicate Rewrites(es: Script, a: string, b: string) {
    Source(es) == a && Target(es) == b
  }

  // ---------- Distance ----------

  function Min(x: int, y: int): int {
    if x <= y then x else y
  }

  function Max(x: int, y: int): int {
    if x <= y then y else x
  }

  function Mismatch(x: char, y: char): nat {
    if x == y then 0 else 1
  }

  function Init(s: string): string
    requires s != []
  {
    s[..|s| - 1]
  }

  function Last(s: string): char
    requires s != []
  {
    s[|s| - 1]
  }

  function Distance(a: string, b: string): nat
    decreases |a| + |b|
  {
    if a == [] then |b|
    else if b == [] then |a|
    else
      Min(Distance(Init(a), Init(b)) + Mismatch(Last(a), Last(b)),
          Min(Distance(Init(a), b) + 1, Distance(a, Init(b)) + 1))
  }

  // ---------- The distance is the least cost of a script ----------

  lemma ScriptSnoc(es: Script, e: Edit)
    ensures Source(es + [e]) == Source(es) + Before(e)
    ensures Target(es + [e]) == Target(es) + After(e)
    ensures Cost(es + [e]) == Cost(es) + if e.Keep? then 0 else 1
  {
    assert (es + [e])[..|es|] == es;
  }

  // A last edit of a cheapest script
  function LastEdit(a: string, b: string): Edit
    requires a != [] || b != []
  {
    if b == [] || (a != [] && Distance(a, b) == Distance(Init(a), b) + 1) then Delete(Last(a))
    else if a == [] || Distance(a, b) == Distance(a, Init(b)) + 1 then Insert(Last(b))
    else if Last(a) == Last(b) then Keep(Last(a))
    else Replace(Last(a), Last(b))
  }

  // What is left of the two words before that edit
  function Rest(a: string, b: string): (string, string)
    requires a != [] || b != []
  {
    match LastEdit(a, b)
    case Delete(_) => (Init(a), b)
    case Insert(_) => (a, Init(b))
    case _ => (Init(a), Init(b))
  }

  lemma LastEditSplits(a: string, b: string)
    requires a != [] || b != []
    ensures var (a', b') := Rest(a, b);
            && a == a' + Before(LastEdit(a, b)) && b == b' + After(LastEdit(a, b))
            && |a'| + |b'| < |a| + |b|
  {
    assert a != [] ==> a == Init(a) + [Last(a)];
    assert b != [] ==> b == Init(b) + [Last(b)];
    assert a == a + [] && b == b + [];
  }

  lemma LastEditIsCheapest(a: string, b: string)
    requires a != [] || b != []
    ensures Distance(a, b) == Distance(Rest(a, b).0, Rest(a, b).1) + if LastEdit(a, b).Keep? then 0 else 1
  {
    if a == [] || b == [] {
    } else if LastEdit(a, b).Delete? {
    } else if LastEdit(a, b).Insert? {
    } else {
      assert Rest(a, b) == (Init(a), Init(b));
    }
  }

  /** A script that attains the distance. */
  function OptimalScript(a: string, b: string): (es: Script)
    ensures Rewrites(es, a, b)
    ensures Cost(es) == Distance(a, b)
    decreases |a| + |b|
  {
    if a == [] && b == [] then []
    else
      LastEditSplits(a, b);
      LastEditIsCheapest(a, b);
      var es := OptimalScript(Rest(a, b).0, Rest(a, b).1);
      ScriptSnoc(es, LastEdit(a, b));
      es + [LastEdit(a, b)]
  }

  // The recurrence, read as upper bounds
  lemma DistanceSteps(a: string, b: string, x: char, y: char)
    ensures Distance(a + [x], b) <= Distance(a, b) + 1
    ensures Distance(a, b + [y]) <= Distance(a, b) + 1
    ensures Distance(a + [x], b + [y]) <= Distance(a, b) + Mismatch(x, y)
  {
    assert Init(a + [x]) == a && Init(b + [y]) == b;
  }

  lemma DistanceOneEdit(a: string, b: string, e: Edit)
    ensures Distance(a + Before(e), b + After(e)) <= Distance(a, b) + if e.Keep? then 0 else 1
  {
    match e
    case Keep(c) => DistanceSteps(a, b, c, c);
    case Replace(x, y) => DistanceSteps(a, b, x, y);
    case Delete(x) => DistanceSteps(a, b, x, x); assert b + [] == b;
    case Insert(y) => DistanceSteps(a, b, y, y); assert a + [] == a;
  }

  /** No script is cheaper than the distance. */
  lemma {:induction false} NoCheaperScript(es: Script)
    ensures Distance(Source(es), Target(es)) <= Cost(es)
  {
    if es != [] {
      var fs, e := es[..|es| - 1], es[|es| - 1];
      NoCheaperScript(fs);
      DistanceOneEdit(Source(fs), Target(fs), e);
    }
  }

  /** A number is the distance exactly when some script has that cost and none costs less. */
  lemma DistanceIsLeastCost(a: string, b: string, d: nat)
    ensures d == Distance(a, b) <==>
            (exists es :: Rewrites(es, a, b) && Cost(es) == d) &&
            (forall es :: Rewrites(es, a, b) ==> d <= Cost(es))
  {
    var best := OptimalScript(a, b);
    assert Rewrites(best, a, b);
    forall es | Rewrites(es, a, b) ensures Distance(a, b) <= Cost(es) {
      NoCheaperScript(es);
    }
  }

  // ---------- The distance is a metric ----------

  lemma {:induction false} DistanceSymmetric(a: string, b: string)
    ensures Distance(a, b) == Distance(b, a)
    decreases |a| + |b|
  {
    if a != [] && b != [] {
      DistanceSymmetric(Init(a), Init(b));
      DistanceSymmetric(Init(a), b);
      DistanceSymmetric(a, Init(b));
    }
  }

  lemma {:induction false} DistanceBounds(a: string, b: string)
    ensures |a| - |b| <= Distance(a, b) && |b| - |a| <= Distance(a, b)
    ensures Distance(a, b) <= Max(|a|, |b|)
    decreases |a| + |b|
  {
    if a != [] && b != [] {
      DistanceBounds(Init(a), Init(b));
      DistanceBounds(Init(a), b);
      DistanceBounds(a, Init(b));
    }
  }

  lemma {:induction false} DistanceZero(a: string, b: string)
    ensures Distance(a, b) == 0 <==> a == b
    decreases |a| + |b|
  {
    if a != [] && b != [] {
      DistanceZero(Init(a), Init(b));
      assert a == Init(a) + [Last(a)] && b == Init(b) + [Last(b)];
    }
  }

  /** The triangle inequality, by the way the two given distances are attained. */
  lemma {:induction false} DistanceTriangle(a: string, b: string, c: string)
    ensures Distance(a, c) <= Distance(a, b) + Distance(b, c)
    decreases |a| + |b| + |c|
  {
    DistanceBounds(a, b);
    DistanceBounds(b, c);
    DistanceBounds(a, c);
    if a == [] || b == [] || c == [] {
    } else if Distance(a, b) == Distance(Init(a), b) + 1 {
      DistanceTriangle(Init(a), b, c);
    } else if Distance(b, c) == Distance(b, Init(c)) + 1 {
      DistanceTriangle(a, b, Init(c));
    } else if Distance(a, b) == Distance(a, Init(b)) + 1 {
      DistanceTriangle(a, Init(b), c);
      DistanceTriangle(a, Init(b), Init(c));
    } else {
      DistanceTriangle(Init(a), Init(b), c);
      DistanceTriangle(Init(a), Init(b), Init(c));
    }
  }

  // ---------- First characters ----------

  lemma {:induction false} DistancePrepend(x: char, a: string, y: char, b: string)
    ensures Distance([x] + a, [y] + b) <= Distance(a, b) + Mismatch(x, y)
    decreases |a| + |b|
  {
    if a == [] && b == [] {
      assert Init([x]) == [] && Init([y]) == [];
    } else if b == [] || (a != [] && Distance(a, b) == Distance(Init(a), b) + 1) {
      DistancePrepend(x, Init(a), y, b);
      assert Init([x] + a) == [x] + Init(a);
      assert Distance([x] + a, [y] + b) <= Distance(Init([x] + a), [y] + b) + 1;
    } else if a == [] || Distance(a, b) == Distance(a, Init(b)) + 1 {
      DistancePrepend(x, a, y, Init(b));
      assert Init([y] + b) == [y] + Init(b);
      assert Distance([x] + a, [y] + b) <= Distance([x] + a, Init([y] + b)) + 1;
    } else {
      DistancePrepend(x, Init(a), y, Init(b));
      assert Init([x] + a) == [x] + Init(a) && Init([y] + b) == [y] + Init(b);
    }
  }

  lemma {:induction false} DistanceDropOne(x: char, a: string)
    ensures Distance([x] + a, a) <= 1
  {
    if a == [] {
      assert |[x] + a| == 1;
    } else {
      DistanceDropOne(x, Init(a));
      assert Init([x] + a) == [x] + Init(a) && Last([x] + a) == Last(a);
    }
  }

  lemma InitPrepend(x: char, a: string)
    requires a != []
    ensures Init([x] + a) == [x] + Init(a) && Last([x] + a) == Last(a)
    ensures Init(a) + [Last(a)] == a
  {
  }

  /** Dropping the first characters of both words never makes them further apart. */
  lemma {:induction false} DistanceTails(x: char, a: string, y: char, b: string)
    ensures Distance(a, b) <= Distance([x] + a, [y] + b)
    decreases |a| + |b|, 1
  {
    DistanceBounds(a, b);
    DistanceBounds([x] + a, [y] + b);
    if a != [] && b != [] {
      TailsStep(x, a, y, b);
    }
  }

  lemma {:induction false} TailsStep(x: char, a: string, y: char, b: string)
    requires a != [] && b != []
    ensures Distance(a, b) <= Distance([x] + a, [y] + b)
    decreases |a| + |b|, 0
  {
    InitPrepend(x, a);
    InitPrepend(y, b);
    DistanceTails(x, Init(a), y, b);
    DistanceTails(x, a, y, Init(b));
    DistanceTails(x, Init(a), y, Init(b));
  }
}
