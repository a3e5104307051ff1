/**
 * The two small rules of App.tsx about people: the analyst roster
 * (`addAnalyst`, `removeAnalyst`) and the manager-login form.
 */
module Staff {
  import opened Types
  import Text

  function Occurrences(s: seq<string>, x: string): nat
  {
    if |s| == 0 then 0 else (if s[0] == x then 1 else 0) + Occurrences(s[1..], x)
  }

  ghost predicate NoDuplicates(s: seq<string>)
  {
    forall i, j :: 0 <= i < j < |s| ==> s[i] != s[j]
  }

  /** `addAnalyst`: an empty or already listed name changes nothing; any
      other name goes at the end. */
  function AddAnalyst(roster: seq<string>, name: string): (r: seq<string>)
    ensures name == "" || name in roster ==> r == roster
    ensures name != "" && name !in roster ==> r == roster + [name]
    ensures NoDuplicates(roster) ==> NoDuplicates(r)
    ensures forall x :: x in r <==> x in roster || (x == name && name != "")
  {
    if name == "" || name in roster then roster else roster + [name]
  }

  /** `removeAnalyst`: `roster.filter(a => a !== name)`. */
  function RemoveAnalyst(roster: seq<string>, name: string): (r: seq<string>)
    ensures name !in r
    ensures forall x :: x != name ==> Occurrences(r, x) == Occurrences(roster, x)
    ensures |r| == |roster| - Occurrences(roster, name)
    ensures NoDuplicates(roster) ==> NoDuplicates(r)
  {
    if |roster| == 0 then []
    else if roster[0] == name then RemoveAnalyst(roster[1..], name)
    else
      var rest := RemoveAnalyst(roster[1..], name);
      assert forall x :: x in rest ==> x in roster[1..] by {
        OccurrencesPositive(rest);
        OccurrencesPositive(roster[1..]);
      }
      assert NoDuplicates(roster) ==> roster[0] !in roster[1..] by {
        assert forall k :: 0 <= k < |roster[1..]| ==> roster[1..][k] == roster[k + 1];
      }
      var r := [roster[0]] + rest;
      assert forall k :: 1 <= k < |r| ==> r[k] == rest[k - 1];
      r
  }

  lemma {:induction false} OccurrencesPositive(s: seq<string>)
    ensures forall x :: x in s <==> Occurrences(s, x) > 0
  {
    if |s| > 0 {
      OccurrencesPositive(s[1..]);
      assert forall x :: x in s <==> x == s[0] || x in s[1..];
    }
  }

  lemma {:induction false} OccurrencesSplit(a: seq<string>, b: seq<string>, x: string)
    ensures Occurrences(a + b, x) == Occurrences(a, x) + Occurrences(b, x)
  {
    if |a| > 0 {
      assert (a + b)[1..] == a[1..] + b;
      OccurrencesSplit(a[1..], b, x);
    } else {
      assert a + b == b;
    }
  }

  /** Removal keeps the order of the others: it distributes over
      concatenation, so each remaining name keeps its relative position. */
  lemma {:induction false} RemoveAnalystKeepsOrder(a: seq<string>, b: seq<string>, name: string)
    ensures RemoveAnalyst(a + b, name) == RemoveAnalyst(a, name) + RemoveAnalyst(b, name)
  {
    if |a| > 0 {
      assert (a + b)[1..] == a[1..] + b;
      RemoveAnalystKeepsOrder(a[1..], b, name);
    } else {
      assert a + b == b;
    }
  }

  /** Adding then removing the same new name gives the roster back. */
  lemma AddThenRemove(roster: seq<string>, name: string)
    requires name !in roster
    ensures RemoveAnalyst(AddAnalyst(roster, name), name) == roster
  {
    RemoveAnalystKeepsOrder(roster, [name], name);
    RemoveAbsent(roster, name);
    assert RemoveAnalyst([name], name) == [];
  }

  lemma {:induction false} RemoveAbsent(roster: seq<string>, name: string)
    requires name !in roster
    ensures RemoveAnalyst(roster, name) == roster
  {
    if |roster| > 0 {
      RemoveAbsent(roster[1..], name);
    }
  }

  // ---------------------------------------------------------------------
  // Manager login

  const MinPasswordLength: nat := 4

  datatype LoginError = TooShort | WrongPassword

  /** The outcome of submitting the manager-login form: either the manager
      role is granted (with the password in force afterwards), or an error. */
  datatype Login = Granted(password: string) | Denied(error: LoginError)

  /** `stored` is the manager password on record (`null` when none); an empty
      string counts as none, since the source tests `!mgPassword`. */
  function ManagerLogin(stored: Option<string>, input: string): (r: Login)
    ensures r.Granted? <==>
              if stored.None? || stored.value == "" then Text.Utf16Length(input) >= MinPasswordLength
              else input == stored.value
    ensures r.Granted? ==> r.password == input
    ensures r.Denied? && (stored.None? || stored.value == "") ==> r.error == TooShort
    ensures r.Denied? && stored.Some? && stored.value != "" ==> r.error == WrongPassword
  {
    if stored.None? || stored.value == "" then
      if Text.Utf16Length(input) < MinPasswordLength then Denied(TooShort) else Granted(input)
    else if input == stored.value then Granted(stored.value)
    else Denied(WrongPassword)
  }

  /** Once a password is set by the first login, only that password logs in. */
  lemma FirstLoginSetsPassword(first: string, later: string)
    requires Text.Utf16Length(first) >= MinPasswordLength
    ensures ManagerLogin(None, first) == Granted(first)
    ensures ManagerLogin(Some(ManagerLogin(None, first).password), later).Granted? <==> later == first
  {
  }

  /** The length test counts UTF-16 code units: two characters above U+FFFF
      are long enough for a first password, three characters of the Basic
      Multilingual Plane are not. */
  lemma LengthCountsCodeUnits()
    ensures ManagerLogin(None, "\U{1F600}\U{1F600}") == Granted("\U{1F600}\U{1F600}")
    ensures ManagerLogin(None, "abc") == Denied(TooShort)
  {
    var pair := "\U{1F600}\U{1F600}";
    assert pair[1..] == "\U{1F600}" && pair[1..][1..] == "";
    assert Text.Utf16Length(pair) == 4;
  }
}
