/** The order in which the pages ask the database for rows: ascending by date, or by date and
    then time. The model sorts by insertion and compares the strings the pages insert: dates
    "YYYY-MM-DD" and times "HH:MM", both fixed width, so their text order is their
    chronological order. */
module Ordering {
  import Lex
  import opened Appointments

  /** `.order('appointment_date')` alone, or followed by `.order('appointment_time')`. */
  datatype SortKey = ByDate | ByDateThenTime

  /** `a` may come before `b` under the key. */
  predicate InOrder(k: SortKey, a: Appointment, b: Appointment) {
    Lex.Less(a.date, b.date) || (a.date == b.date && (k.ByDate? || Lex.LessEq(a.time, b.time)))
  }

  lemma InOrderTotal(k: SortKey, a: Appointment, b: Appointment)
    ensures InOrder(k, a, b) || InOrder(k, b, a)
  {
    Lex.Total(a.date, b.date);
    Lex.Total(a.time, b.time);
  }

  lemma InOrderTransitive(k: SortKey, a: Appointment, b: Appointment, c: Appointment)
    requires InOrder(k, a, b) && InOrder(k, b, c)
    ensures InOrder(k, a, c)
  {
    if Lex.Less(a.date, b.date) && Lex.Less(b.date, c.date) {
      Lex.Transitive(a.date, b.date, c.date);
    }
    if a.date == b.date == c.date && k.ByDateThenTime? && Lex.Less(a.time, b.time) && Lex.Less(b.time, c.time) {
      Lex.Transitive(a.time, b.time, c.time);
    }
  }

  predicate Sorted(k: SortKey, s: seq<Appointment>) {
    forall i, j :: 0 <= i < j < |s| ==> InOrder(k, s[i], s[j])
  }

  /** `r` placed before the first element it may precede. */
  function Insert(k: SortKey, r: Appointment, s: seq<Appointment>): (t: seq<Appointment>)
    ensures multiset(t) == multiset(s) + multiset{r}
  {
    if s == [] then [r]
    else if InOrder(k, r, s[0]) then [r] + s
    else
      assert s == [s[0]] + s[1..];
      [s[0]] + Insert(k, r, s[1..])
  }

  /** A sorted sequence stays sorted under a new head that may precede all of it. */
  lemma ConsSorted(k: SortKey, a: Appointment, u: seq<Appointment>)
    requires Sorted(k, u) && forall j :: 0 <= j < |u| ==> InOrder(k, a, u[j])
    ensures Sorted(k, [a] + u)
  {
    var t := [a] + u;
    forall i, j | 0 <= i < j < |t| ensures InOrder(k, t[i], t[j]) {
      assert t[j] == u[j - 1];
      if i > 0 {
        assert t[i] == u[i - 1];
      }
    }
  }

  /** Whatever may precede every element and `r` may precede every element after inserting `r`. */
  lemma {:induction false} InsertBound(k: SortKey, a: Appointment, r: Appointment, s: seq<Appointment>)
    requires InOrder(k, a, r) && forall j :: 0 <= j < |s| ==> InOrder(k, a, s[j])
    ensures forall j :: 0 <= j < |Insert(k, r, s)| ==> InOrder(k, a, Insert(k, r, s)[j])
  {
    if s != [] && !InOrder(k, r, s[0]) {
      InsertBound(k, a, r, s[1..]);
      var u := Insert(k, r, s[1..]);
      assert Insert(k, r, s) == [s[0]] + u;
      forall j | 0 <= j < 1 + |u| ensures InOrder(k, a, ([s[0]] + u)[j]) {
        if j > 0 {
          assert ([s[0]] + u)[j] == u[j - 1];
        }
      }
    } else if s != [] {
      forall j | 0 <= j < 1 + |s| ensures InOrder(k, a, ([r] + s)[j]) {
        if j > 0 {
          assert ([r] + s)[j] == s[j - 1];
        }
      }
    }
  }

  lemma {:induction false} InsertSorted(k: SortKey, r: Appointment, s: seq<Appointment>)
    requires Sorted(k, s)
    ensures Sorted(k, Insert(k, r, s))
  {
    if s == [] {
    } else if InOrder(k, r, s[0]) {
      forall j | 0 <= j < |s| ensures InOrder(k, r, s[j]) {
        if j > 0 {
          InOrderTransitive(k, r, s[0], s[j]);
        }
      }
      ConsSorted(k, r, s);
    } else {
      InOrderTotal(k, r, s[0]);
      InsertSorted(k, r, s[1..]);
      InsertBound(k, s[0], r, s[1..]);
      ConsSorted(k, s[0], Insert(k, r, s[1..]));
    }
  }

  /** The rows in the key's order. */
  function SortBy(k: SortKey, s: seq<Appointment>): (t: seq<Appointment>)
    ensures multiset(t) == multiset(s)
  {
    if s == [] then []
    else
      assert s == [s[0]] + s[1..];
      Insert(k, s[0], SortBy(k, s[1..]))
  }

  /** The result is ordered by the key and holds exactly the given rows. */
  lemma {:induction false} SortBySorted(k: SortKey, s: seq<Appointment>)
    ensures Sorted(k, SortBy(k, s))
  {
    if s != [] {
      SortBySorted(k, s[1..]);
      InsertSorted(k, s[0], SortBy(k, s[1..]));
    }
  }
}
