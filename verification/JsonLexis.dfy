/** What the scanning loops find, and the order of names, without reference to the
    loops. */
module JsonLexis {
  import opened JsonText
  import opened JsonGrammar

  /** "*" and "/" stand at e. */
  predicate ClosesAt(t: string, e: nat) { e + 1 < |t| && t[e] == '*' && t[e + 1] == '/' }

  /** A comment ends behind its first closing mark, and is broken without one. */
  lemma {:induction false} CommentEnds(t: string, pos: nat)
    requires pos <= |t|
    ensures var r := ScanCComment(t, pos);
            && (r.ok ==> r.pos >= pos + 2 && ClosesAt(t, r.pos - 2) && forall e :: pos <= e < r.pos - 2 ==> !ClosesAt(t, e))
            && (!r.ok ==> r.pos == |t| && forall e :: pos <= e < |t| ==> !ClosesAt(t, e))
    decreases |t| - pos
  {
    if pos < |t| && !ClosesAt(t, pos) {
      CommentEnds(t, pos + 1);
    }
  }

  predicate IsLineEnd(c: char) { c == '\r' || c == '\n' }

  /** A line comment ends behind the first end of line, or with the text. */
  lemma {:induction false} LineCommentEnds(t: string, pos: nat)
    requires pos <= |t|
    ensures var r := ScanCppComment(t, pos);
            && (r == |t| || (r > pos && IsLineEnd(t[r - 1])))
            && forall e :: pos <= e < r - 1 ==> !IsLineEnd(t[e])
    decreases |t| - pos
  {
    if pos < |t| && !IsLineEnd(t[pos]) {
      LineCommentEnds(t, pos + 1);
    }
  }

  /** A number is the longest run of number characters. */
  lemma {:induction false} NumberIsRun(t: string, pos: nat)
    requires pos <= |t|
    ensures var r := ScanNumber(t, pos);
            (forall i :: pos <= i < r ==> IsNumberChar(t[i])) && (r < |t| ==> !IsNumberChar(t[r]))
    decreases |t| - pos
  {
    if pos < |t| && IsNumberChar(t[pos]) {
      NumberIsRun(t, pos + 1);
    }
  }

  /** Plain characters and pairs of a backslash and any character. */
  predicate IsBody(t: string, a: nat, b: nat)
    requires b <= |t|
    decreases b - a
  {
    a == b || (a < b && if t[a] == '\\' then a + 2 <= b && IsBody(t, a + 2, b) else t[a] != '"' && IsBody(t, a + 1, b))
  }

  /** A string ends at the first quote that is not escaped. */
  lemma {:induction false} StringEnds(t: string, pos: nat)
    requires pos <= |t|
    ensures var r := ScanString(t, pos); r.ok ==> r.pos > pos && t[r.pos - 1] == '"' && IsBody(t, pos, r.pos - 1)
    decreases |t| - pos
  {
    if pos < |t| && t[pos] == '\\' {
      StringEnds(t, Next(t, pos + 1));
    } else if pos < |t| && t[pos] != '"' {
      StringEnds(t, pos + 1);
    }
  }

  /** And is found whenever there is one. */
  lemma {:induction false} StringFound(t: string, pos: nat, q: nat)
    requires pos <= q < |t| && IsBody(t, pos, q) && t[q] == '"'
    ensures ScanString(t, pos) == Scan(true, q + 1)
    decreases q - pos
  {
    if pos < q {
      StringFound(t, if t[pos] == '\\' then pos + 2 else pos + 1, q);
    }
  }

  /** A C string is the bytes before the first NUL. */
  lemma {:induction false} CStringIs(s: string)
    ensures var c := CString(s);
            c <= s && NulFree(c) && (|c| < |s| ==> s[|c|] == '\0')
  {
    if s != [] && s[0] != '\0' {
      CStringIs(s[1..]);
      var c := CString(s[1..]);
      assert s == [s[0]] + s[1..];
      assert forall i :: 0 <= i < |c| ==> c[i] != '\0';
    }
  }

  /** a and b agree before k. */
  predicate Agree(a: string, b: string, k: nat) {
    k <= |a| && k <= |b| && forall i :: 0 <= i < k ==> a[i] == b[i]
  }

  /** a ends where b goes on, or has the smaller byte there. */
  predicate BelowAt(a: string, b: string, k: nat) {
    Agree(a, b, k) && k < |b| && (k == |a| || (k < |a| && a[k] < b[k]))
  }

  /** Names are ordered by their first different byte. */
  lemma {:induction false} LessIs(a: string, b: string)
    ensures Less(a, b) <==> exists k :: 0 <= k <= |a| && BelowAt(a, b, k)
  {
    if a == [] {
      assert b != [] ==> BelowAt(a, b, 0);
    } else if b != [] {
      var x, y := a[1..], b[1..];
      LessIs(x, y);
      if a[0] == b[0] {
        if k :| 0 <= k <= |x| && BelowAt(x, y, k) {
          assert BelowAt(a, b, k + 1);
        }
        if k :| 0 <= k <= |a| && BelowAt(a, b, k) {
          assert k > 0;
          Shorter(a, b, k);
        }
      } else if a[0] < b[0] {
        assert BelowAt(a, b, 0);
      }
    }
  }

  lemma Shorter(a: string, b: string, k: nat)
    requires k > 0 && BelowAt(a, b, k)
    ensures BelowAt(a[1..], b[1..], k - 1)
  {
    var x, y := a[1..], b[1..];
    forall i | 0 <= i < k - 1 ensures x[i] == y[i] {
      assert a[i + 1] == b[i + 1];
    }
  }
}
