/** A scope list as the database stores it, a JSON array of strings, and the test a
    rule makes of it: does the text contain the quoted scope (util/rules.go). */
module ScopeList {

  /** A string JSON writes as it is, between quotes (section 7 of RFC 8259). */
  predicate Clean(s: string) {
    forall i :: 0 <= i < |s| ==> s[i] != '"' && s[i] != '\\' && s[i] >= ' '
  }

  predicate AllClean(list: seq<string>) {
    forall i :: 0 <= i < |list| ==> Clean(list[i])
  }

  function Quoted(s: string): string { "\"" + s + "\"" }

  function Items(list: seq<string>): string {
    if list == [] then ""
    else if |list| == 1 then Quoted(list[0])
    else Quoted(list[0]) + "," + Items(list[1..])
  }

  /** The stored text of a list of clean strings. */
  function Stored(list: seq<string>): string { "[" + Items(list) + "]" }

  predicate OccursAt(text: string, needle: string, p: nat) {
    p + |needle| <= |text| && text[p..p + |needle|] == needle
  }

  predicate Contains(text: string, needle: string) {
    exists p | 0 <= p <= |text| :: OccursAt(text, needle, p)
  }

  /** The quoted scope as it lies in the text: from one quote to another. */
  ghost predicate Spans(text: string, s: string, p: nat) {
    && p + |s| + 2 <= |text|
    && text[p] == '"' && text[p + |s| + 1] == '"'
    && forall k {:trigger s[k]} :: 0 <= k < |s| ==> text[p + 1 + k] == s[k]
  }

  lemma QuotedSpan(text: string, s: string, p: nat)
    ensures OccursAt(text, Quoted(s), p) <==> Spans(text, s, p)
  {
    var q := Quoted(s);
    assert |q| == |s| + 2 && q[0] == '"' && q[|s| + 1] == '"';
    assert forall k :: 0 <= k < |s| ==> q[k + 1] == s[k];
    if OccursAt(text, q, p) {
      assert forall k :: 0 <= k < |q| ==> text[p + k] == q[k];
      forall k | 0 <= k < |s| ensures text[p + 1 + k] == s[k] {
        assert text[p + (1 + k)] == q[1 + k];
      }
    }
    if Spans(text, s, p) {
      forall k | 0 <= k < |q| ensures text[p + k] == q[k] {
        if 0 < k <= |s| { assert text[p + 1 + (k - 1)] == s[k - 1]; }
      }
      assert text[p..p + |q|] == q;
    }
  }

  /** A text that starts with a quoted string and goes on. */
  ghost predicate Opens(text: string, x: string, rest: string) {
    && |text| == |x| + 3 + |rest|
    && text[0] == '"' && text[|x| + 1] == '"' && text[|x| + 2] == ','
    && (forall k {:trigger x[k]} :: 0 <= k < |x| ==> text[1 + k] == x[k])
    && (forall k {:trigger rest[k]} :: 0 <= k < |rest| ==> text[|x| + 3 + k] == rest[k])
  }

  lemma QuotedOpens(x: string, rest: string)
    ensures Opens(Quoted(x) + "," + rest, x, rest)
  {
    var text := Quoted(x) + "," + rest;
    assert Quoted(x)[0] == '"' && Quoted(x)[|x| + 1] == '"';
    assert forall k {:trigger x[k]} :: 0 <= k < |x| ==> Quoted(x)[1 + k] == x[k];
    assert text[|x| + 2] == ',';
  }

  lemma ItemsStart(list: seq<string>)
    requires list != []
    ensures Items(list) != "" && Items(list)[0] == '"'
  {
    assert Quoted(list[0])[0] == '"';
  }

  lemma ItemsOpen(list: seq<string>)
    requires |list| >= 2
    ensures Opens(Items(list), list[0], Items(list[1..]))
    ensures Items(list[1..]) != "" && Items(list[1..])[0] == '"'
  {
    hide Opens, Quoted;
    QuotedOpens(list[0], Items(list[1..]));
    ItemsStart(list[1..]);
  }

  lemma NoQuoteWithin(text: string, x: string, at: nat, k: nat)
    requires Clean(x) && k < |x| && at + |x| <= |text|
    requires forall j {:trigger x[j]} :: 0 <= j < |x| ==> text[at + j] == x[j]
    ensures text[at + k] != '"'
  {
    assert text[at + k] == x[k];
  }

  lemma SpansFirst(text: string, x: string, s: string)
    requires |text| >= |x| + 2 && text[|x| + 1] == '"'
    requires forall k {:trigger x[k]} :: 0 <= k < |x| ==> text[1 + k] == x[k]
    requires Clean(x) && Clean(s) && Spans(text, s, 0)
    ensures s == x
  {
    if |s| > |x| {
      NoQuoteWithin(text, s, 1, |x|);
    }
    if |s| < |x| {
      NoQuoteWithin(text, x, 1, |s|);
    }
    forall k | 0 <= k < |s| ensures s[k] == x[k] {
      assert text[0 + 1 + k] == s[k];
    }
  }

  lemma SpansBetween(text: string, x: string, rest: string, s: string)
    requires Opens(text, x, rest) && rest != "" && rest[0] == '"'
    requires Clean(s) && Spans(text, s, |x| + 1)
    ensures s == ","
  {
    assert text[|x| + 3] == rest[0];
    if |s| > 1 {
      NoQuoteWithin(text, s, |x| + 2, 1);
    }
    assert |s| == 1;
    assert text[|x| + 1 + 1 + 0] == s[0];
  }

  lemma SpansLater(text: string, x: string, rest: string, s: string, p: nat)
    requires Opens(text, x, rest) && Spans(text, s, p) && p > |x| + 1
    ensures p >= |x| + 3 && Spans(rest, s, p - (|x| + 3))
  {
    var n := |x| + 3;
    assert p != |x| + 2;
    var q: nat := p - n;
    assert rest[q] == text[n + q];
    assert rest[q + |s| + 1] == text[n + (q + |s| + 1)];
    forall k {:trigger s[k]} | 0 <= k < |s| ensures rest[q + 1 + k] == s[k] {
      assert text[p + 1 + k] == s[k];
      assert text[n + (q + 1 + k)] == rest[q + 1 + k];
    }
  }

  lemma {:induction false} FoundInItems(list: seq<string>, s: string, p: nat)
    requires AllClean(list) && Clean(s) && Spans(Items(list), s, p)
    ensures s in list || (s == "," && |list| >= 2)
  {
    var text := Items(list);
    hide Items, Spans, Clean;
    ItemsOfFew(list);
    if list == [] {
      SpanInside(text, s, p);
    } else if |list| == 1 {
      OneSpan(list[0], s, p);
      assert s == list[0];
    } else {
      ItemsOpen(list);
      var x, rest := list[0], Items(list[1..]);
      SpanCases(text, x, rest, s, p);
      if p == 0 {
        assert s == list[0];
      } else if p > |x| + 1 {
        FoundInItems(list[1..], s, p - (|x| + 3));
      }
    }
  }

  lemma OneSpan(x: string, s: string, p: nat)
    requires Clean(x) && Clean(s) && Spans(Quoted(x), s, p)
    ensures s == x
  {
    var text := Quoted(x);
    assert forall k {:trigger x[k]} :: 0 <= k < |x| ==> text[1 + k] == x[k];
    SpansFirst(text, x, s);
  }

  lemma SpanCases(text: string, x: string, rest: string, s: string, p: nat)
    requires Opens(text, x, rest) && rest != "" && rest[0] == '"'
    requires Clean(x) && Clean(s) && Spans(text, s, p)
    ensures p == 0 ==> s == x
    ensures 0 < p <= |x| + 1 ==> s == ","
    ensures p > |x| + 1 ==> p >= |x| + 3 && Spans(rest, s, p - (|x| + 3))
  {
    if p == 0 {
      SpansFirst(text, x, s);
    } else if p <= |x| {
      NoQuoteWithin(text, x, 1, p - 1);
    } else if p == |x| + 1 {
      SpansBetween(text, x, rest, s);
    } else if p > |x| + 1 {
      SpansLater(text, x, rest, s, p);
    }
  }

  lemma {:induction false} ItemFound(list: seq<string>, i: nat) returns (p: nat)
    requires i < |list|
    ensures Spans(Items(list), list[i], p)
  {
    if |list| == 1 {
      p := 0;
      assert Items(list) == Quoted(list[0]);
    } else {
      ItemsOpen(list);
      if i == 0 {
        p := 0;
      } else {
        var q := ItemFound(list[1..], i - 1);
        p := SpansShift(Items(list), list[0], Items(list[1..]), list[i], q);
      }
    }
  }

  lemma SpansShift(text: string, x: string, rest: string, s: string, q: nat) returns (p: nat)
    requires Opens(text, x, rest) && Spans(rest, s, q)
    ensures Spans(text, s, p)
  {
    var n := |x| + 3;
    p := n + q;
    assert text[n + q] == rest[q];
    assert text[n + (q + |s| + 1)] == rest[q + |s| + 1];
    forall k {:trigger s[k]} | 0 <= k < |s| ensures text[p + 1 + k] == s[k] {
      assert text[n + (q + 1 + k)] == rest[q + 1 + k];
    }
  }

  lemma {:induction false} CommaFound(list: seq<string>) returns (p: nat)
    requires |list| >= 2
    ensures Spans(Items(list), ",", p)
  {
    ItemsOpen(list);
    var rest := Items(list[1..]);
    p := |list[0]| + 1;
    assert Items(list)[|list[0]| + 3 + 0] == rest[0];
  }

  lemma Bracketed(text: string, s: string, p: nat)
    ensures Spans(text, s, p) ==> Spans("[" + text + "]", s, p + 1)
    ensures Spans("[" + text + "]", s, p) ==> p > 0 && Spans(text, s, p - 1)
  {
    var t := "[" + text + "]";
    assert forall k {:trigger text[k]} :: 0 <= k < |text| ==> t[1 + k] == text[k];
    assert t[0] == '[' && t[|text| + 1] == ']';
    if Spans(text, s, p) {
      assert t[1 + p] == text[p];
      assert t[1 + (p + |s| + 1)] == text[p + |s| + 1];
      forall k {:trigger s[k]} | 0 <= k < |s| ensures t[p + 1 + 1 + k] == s[k] {
        assert t[1 + (p + 1 + k)] == text[p + 1 + k];
      }
    }
    if Spans(t, s, p) {
      assert p != 0 && p + |s| + 1 != |text| + 1;
      assert t[1 + (p - 1)] == text[p - 1];
      assert t[1 + (p + |s|)] == text[p + |s|];
      forall k {:trigger s[k]} | 0 <= k < |s| ensures text[p - 1 + 1 + k] == s[k] {
        assert t[1 + (p + k)] == text[p + k];
      }
    }
  }

  /** The substring test is exact membership, for every clean scope and every list
      of clean scopes, but for one: a lone comma is found in any list of two. */
  lemma QuotedTestIsMembership(list: seq<string>, s: string)
    requires AllClean(list) && Clean(s)
    ensures Contains(Stored(list), Quoted(s)) <==> s in list || (s == "," && |list| >= 2)
  {
    hide Spans, OccursAt, Items, Clean, Quoted;
    var text := Stored(list);
    if Contains(text, Quoted(s)) {
      var p :| 0 <= p <= |text| && OccursAt(text, Quoted(s), p);
      QuotedSpan(text, s, p);
      Bracketed(Items(list), s, p);
      FoundInItems(list, s, p - 1);
    }
    if s in list || (s == "," && |list| >= 2) {
      var p: nat;
      if s in list {
        var i :| 0 <= i < |list| && list[i] == s;
        p := ItemFound(list, i);
      } else {
        p := CommaFound(list);
      }
      Bracketed(Items(list), s, p);
      QuotedSpan(text, s, p + 1);
      assert p + 1 <= |text| by { SpanInside(text, s, p + 1); }
    }
  }

  lemma SpanInside(text: string, s: string, p: nat)
    ensures Spans(text, s, p) ==> p < |text|
  {
  }

  lemma ItemsOfFew(list: seq<string>)
    ensures list == [] ==> Items(list) == ""
    ensures |list| == 1 ==> Items(list) == Quoted(list[0])
  {
  }
}
