/** Decimal identities: the split ids of a distributed scan and the Vane task
    attempt ids of a distributed write. */
module Identity {
  import opened Prelude

  predicate IsDigit(c: char) {
    '0' <= c <= '9'
  }

  predicate AllDigits(s: string) {
    forall i :: 0 <= i < |s| ==> IsDigit(s[i])
  }

  /** The rule shared by `IsCanonicalSplitId` and
      `ValidateVaneTaskIdentityComponent`. */
  predicate Canonical(s: string) {
    s != "" && !(|s| > 1 && s[0] == '0') && AllDigits(s)
  }

  function Digit(n: nat): char
    requires n < 10
  {
    ('0' as int + n) as char
  }

  /** `std::to_string` on an unsigned number. */
  function Decimal(n: nat): string {
    if n < 10 then [Digit(n)] else Decimal(n / 10) + [Digit(n % 10)]
  }

  function Number(s: string): nat
    requires AllDigits(s)
  {
    if s == "" then 0 else 10 * Number(s[..|s| - 1]) + (s[|s| - 1] as int - '0' as int)
  }

  lemma {:induction false} DecimalIsCanonical(n: nat)
    ensures Canonical(Decimal(n)) && Number(Decimal(n)) == n
    ensures n > 0 ==> Decimal(n)[0] != '0'
  {
    if n >= 10 {
      DecimalIsCanonical(n / 10);
      assert Decimal(n)[..|Decimal(n)| - 1] == Decimal(n / 10);
    } else {
      assert Decimal(n)[..0] == "";
    }
  }

  lemma {:induction false} CanonicalIsDecimal(s: string)
    requires Canonical(s)
    ensures Decimal(Number(s)) == s
    ensures s[0] != '0' ==> Number(s) > 0
  {
    var init := s[..|s| - 1];
    assert s == init + [s[|s| - 1]];
    if |s| > 1 {
      assert init[0] == s[0] != '0';
      CanonicalIsDecimal(init);
    }
  }

  lemma DecimalInjective(m: nat, n: nat)
    ensures Decimal(m) == Decimal(n) <==> m == n
  {
    DecimalIsCanonical(m);
    DecimalIsCanonical(n);
  }

  /** `IsCanonicalSplitId` accepts exactly the renderings of natural numbers. */
  method IsCanonicalSplitId(splitId: string) returns (accepted: bool)
    ensures accepted <==> exists n: nat :: splitId == Decimal(n)
    ensures accepted == Canonical(splitId)
  {
    if exists n: nat :: splitId == Decimal(n) {
      var n: nat :| splitId == Decimal(n);
      DecimalIsCanonical(n);
    }
    if splitId == "" || (|splitId| > 1 && splitId[0] == '0') {
      return false;
    }
    for i := 0 to |splitId|
      invariant AllDigits(splitId[..i])
    {
      if splitId[i] < '0' || splitId[i] > '9' {
        return false;
      }
      assert splitId[..i + 1] == splitId[..i] + [splitId[i]];
    }
    assert splitId[..|splitId|] == splitId;
    CanonicalIsDecimal(splitId);
    return true;
  }

  /** Index of the first '.', or the length when there is none. */
  function FirstDot(s: string): (k: nat)
    ensures k <= |s|
    ensures forall i :: 0 <= i < k ==> s[i] != '.'
    ensures k < |s| ==> s[k] == '.'
  {
    if s == "" || s[0] == '.' then 0 else 1 + FirstDot(s[1..])
  }

  /** `StringUtil::Split` on '.': reads with `getline`, so an empty piece after
      a final delimiter is not produced. */
  function Split(s: string): seq<string>
    decreases |s|
  {
    if s == "" then []
    else
      var k := FirstDot(s);
      if k == |s| then [s] else [s[..k]] + Split(s[k + 1..])
  }

  /** The logical task of an attempt: the query, fragment and partition, with
      the attempt number removed. */
  function LogicalTaskIdentity(queryId: string, attemptId: string): Result<string> {
    var prefix := queryId + ".";
    if queryId == "" || !(prefix <= attemptId) then Err
    else
      var components := Split(attemptId[|prefix|..]);
      if |components| != 3 || !Canonical(components[0]) || !Canonical(components[1]) || !Canonical(components[2])
      then Err
      else Ok(prefix + components[0] + "." + components[1])
  }

  function Dotted(head: string, tail: string): string {
    head + "." + tail
  }

  /** How Vane names attempt `attempt` of partition `partition` of fragment `fragment`. */
  function AttemptName(queryId: string, fragment: nat, partition: nat, attempt: nat): string {
    Dotted(queryId, Dotted(Decimal(fragment), Dotted(Decimal(partition), Decimal(attempt))))
  }

  function LogicalName(queryId: string, fragment: nat, partition: nat): string {
    Dotted(queryId, Dotted(Decimal(fragment), Decimal(partition)))
  }

  /** `attemptId` is a well-formed attempt name, possibly followed by one dot,
      which the splitter swallows. */
  ghost predicate Names(attemptId: string, queryId: string, fragment: nat, partition: nat, attempt: nat) {
    attemptId == AttemptName(queryId, fragment, partition, attempt)
    || attemptId == AttemptName(queryId, fragment, partition, attempt) + "."
  }

  lemma DottedCut(head: string, tail: string)
    ensures Dotted(head, tail)[..|head|] == head
    ensures Dotted(head, tail)[|head| + 1..] == tail
    ensures head + "." <= Dotted(head, tail)
  {
  }

  lemma DottedAssociates(a: string, b: string, c: string)
    ensures a + "." + b + "." + c == Dotted(a, Dotted(b, c))
    ensures Dotted(a, b) + "." == Dotted(a, b + ".")
  {
    assert a + "." + b + "." + c == a + "." + (b + "." + c);
    assert Dotted(a, b) + "." == a + "." + (b + ".");
  }

  lemma SplitDotted(head: string, tail: string)
    requires '.' !in head
    ensures FirstDot(Dotted(head, tail)) == |head|
    ensures Split(Dotted(head, tail)) == [head] + Split(tail)
  {
    var s := Dotted(head, tail);
    assert s[|head|] == '.';
    assert forall i :: 0 <= i < |head| ==> s[i] == head[i];
    DottedCut(head, tail);
  }

  lemma SplitDigits(s: string)
    requires s != "" && AllDigits(s)
    ensures Split(s) == [s] && '.' !in s
  {
  }

  /** Every well-named attempt is accepted, with the expected logical identity. */
  lemma AttemptAccepted(attemptId: string, queryId: string, fragment: nat, partition: nat, attempt: nat)
    requires queryId != "" && Names(attemptId, queryId, fragment, partition, attempt)
    ensures LogicalTaskIdentity(queryId, attemptId) == Ok(LogicalName(queryId, fragment, partition))
  {
    var f, p, a := Decimal(fragment), Decimal(partition), Decimal(attempt);
    DecimalIsCanonical(fragment);
    DecimalIsCanonical(partition);
    DecimalIsCanonical(attempt);
    SplitDigits(f);
    SplitDigits(p);
    SplitDigits(a);
    DottedAssociates(queryId, f, p);
    if attemptId == AttemptName(queryId, fragment, partition, attempt) {
      SplitTriple(f, p, a);
      DottedCut(queryId, Dotted(f, Dotted(p, a)));
    } else {
      SplitDotted(a, "");
      assert Dotted(a, "") == a + ".";
      SplitTriple(f, p, a + ".");
      DottedAssociates(p, a, "");
      DottedAssociates(f, Dotted(p, a), "");
      DottedAssociates(queryId, Dotted(f, Dotted(p, a)), "");
      DottedCut(queryId, Dotted(f, Dotted(p, a + ".")));
    }
  }

  lemma SplitTriple(f: string, p: string, rest: string)
    requires '.' !in f && '.' !in p
    ensures Split(Dotted(f, Dotted(p, rest))) == [f, p] + Split(rest)
  {
    SplitDotted(p, rest);
    SplitDotted(f, Dotted(p, rest));
  }

  /** Cutting a text that has a dot at its first one. */
  lemma CutAtFirstDot(s: string) returns (head: string, tail: string)
    requires |Split(s)| > 1
    ensures s == Dotted(head, tail) && Split(s) == [head] + Split(tail)
  {
    var k := FirstDot(s);
    head, tail := s[..k], s[k + 1..];
  }

  /** A split into three pieces pins the text down, up to one trailing dot. */
  lemma SplitInverse(s: string)
    requires |Split(s)| == 3
    ensures var c := Split(s);
            s == Dotted(c[0], Dotted(c[1], c[2])) || s == Dotted(c[0], Dotted(c[1], c[2] + "."))
  {
    var h, t := CutAtFirstDot(s);
    var m, u := CutAtFirstDot(t);
    assert Split(s) == [h, m] + Split(u);
    LastPiece(u);
    hide Split, FirstDot;
  }

  /** A text that is one piece is that piece, perhaps with a dot after it. */
  lemma LastPiece(s: string)
    requires |Split(s)| == 1
    ensures s == Split(s)[0] || s == Split(s)[0] + "."
  {
    var n := FirstDot(s);
    if n < |s| {
      assert Split(s) == [s[..n]] + Split(s[n + 1..]);
      assert s[n + 1..] == "";
      assert s == s[..n] + [s[n]];
    }
  }

  /** Conversely, what is accepted is a well-named attempt, and the reported
      identity names its fragment and partition. */
  lemma AcceptedIsAttempt(queryId: string, attemptId: string) returns (f: nat, p: nat, a: nat)
    requires LogicalTaskIdentity(queryId, attemptId).Ok?
    ensures Names(attemptId, queryId, f, p, a)
    ensures LogicalTaskIdentity(queryId, attemptId) == Ok(LogicalName(queryId, f, p))
  {
    var rest := attemptId[|queryId| + 1..];
    assert attemptId == Dotted(queryId, rest);
    var c := Split(rest);
    SplitInverse(rest);
    CanonicalIsDecimal(c[0]);
    CanonicalIsDecimal(c[1]);
    CanonicalIsDecimal(c[2]);
    f, p, a := Number(c[0]), Number(c[1]), Number(c[2]);
    DottedAssociates(queryId, c[0], c[1]);
    DottedAssociates(c[1], c[2], "");
    DottedAssociates(c[0], Dotted(c[1], c[2]), "");
    DottedAssociates(queryId, Dotted(c[0], Dotted(c[1], c[2])), "");
  }

  /** Logical names of one query are equal exactly when the numbers are. */
  lemma LogicalNameInjective(queryId: string, f1: nat, p1: nat, f2: nat, p2: nat)
    ensures LogicalName(queryId, f1, p1) == LogicalName(queryId, f2, p2) <==> f1 == f2 && p1 == p2
  {
    if LogicalName(queryId, f1, p1) == LogicalName(queryId, f2, p2) {
      DottedCut(queryId, Dotted(Decimal(f1), Decimal(p1)));
      DottedCut(queryId, Dotted(Decimal(f2), Decimal(p2)));
      DecimalIsCanonical(f1);
      DecimalIsCanonical(f2);
      SplitDigits(Decimal(f1));
      SplitDigits(Decimal(f2));
      SplitDotted(Decimal(f1), Decimal(p1));
      SplitDotted(Decimal(f2), Decimal(p2));
      DottedCut(Decimal(f1), Decimal(p1));
      DottedCut(Decimal(f2), Decimal(p2));
      DecimalInjective(f1, f2);
      DecimalInjective(p1, p2);
    }
  }

  /** An attempt is accepted exactly when it is well named. */
  lemma AcceptedIffNamed(queryId: string, attemptId: string)
    ensures LogicalTaskIdentity(queryId, attemptId).Ok?
       <==> queryId != "" && exists f: nat, p: nat, a: nat :: Names(attemptId, queryId, f, p, a)
  {
    if LogicalTaskIdentity(queryId, attemptId).Ok? {
      var f, p, a := AcceptedIsAttempt(queryId, attemptId);
    } else if queryId != "" && exists f: nat, p: nat, a: nat :: Names(attemptId, queryId, f, p, a) {
      var f: nat, p: nat, a: nat :| Names(attemptId, queryId, f, p, a);
      AttemptAccepted(attemptId, queryId, f, p, a);
    }
  }

  /** Two accepted attempts of one query have the same logical identity exactly
      when their fragment and partition numbers agree. */
  lemma SameLogicalTask(queryId: string, attempt1: string, f1: nat, p1: nat, a1: nat,
                        attempt2: string, f2: nat, p2: nat, a2: nat)
    requires queryId != ""
    requires Names(attempt1, queryId, f1, p1, a1) && Names(attempt2, queryId, f2, p2, a2)
    ensures LogicalTaskIdentity(queryId, attempt1) == LogicalTaskIdentity(queryId, attempt2)
       <==> f1 == f2 && p1 == p2
  {
    AttemptAccepted(attempt1, queryId, f1, p1, a1);
    AttemptAccepted(attempt2, queryId, f2, p2, a2);
    LogicalNameInjective(queryId, f1, p1, f2, p2);
  }
}
