/**
 Local parts of mail addresses (framework/address/split.go): splitting an address at its last
 at-sign, and quoting and unquoting the local part (section 4.1.2 of RFC 5321).
 */
module Quoting {
  import opened Uids

  // ---- Splitting ----

  datatype Parts = Parts(mailbox: string, domain: string)

  const POSTMASTER := "postmaster"

  /** Simple case folding onto a lower-case letter of "postmaster"; the long s folds onto s. */
  predicate FoldsTo(c: char, lower: char) {
    c == lower || ('a' <= lower <= 'z' && c as int == lower as int - 32) || (lower == 's' && c == '\U{017F}')
  }

  predicate IsPostmaster(addr: string) {
    |addr| == |POSTMASTER| && forall i :: 0 <= i < |addr| ==> FoldsTo(addr[i], POSTMASTER[i])
  }

  function LastAt(s: string): (r: Option<nat>)
    ensures r.Some? ==> r.value < |s| && s[r.value] == '@' && '@' !in s[r.value + 1..]
    ensures r.None? ==> '@' !in s
  {
    if s == "" then None
    else if s[|s| - 1] == '@' then Some(|s| - 1)
    else
      var front := LastAt(s[..|s| - 1]);
      assert s == s[..|s| - 1] + [s[|s| - 1]];
      assert front.Some? ==> s[front.value + 1..] == s[..|s| - 1][front.value + 1..] + [s[|s| - 1]];
      front
  }

  function Split(addr: string): Option<Parts> {
    if IsPostmaster(addr) then Some(Parts(addr, ""))
    else
      var at := LastAt(addr);
      if at.None? then None
      else
        var mailbox, domain := addr[..at.value], addr[at.value + 1..];
        if mailbox == "" || domain == "" then None else Some(Parts(mailbox, domain))
  }

  lemma {:induction false} LastAtJoined(mailbox: string, domain: string)
    requires '@' !in domain
    ensures LastAt(mailbox + "@" + domain) == Some(|mailbox|)
    decreases |domain|
  {
    var s := mailbox + "@" + domain;
    if domain == "" {
      assert s[|s| - 1] == '@';
    } else {
      assert s[|s| - 1] == domain[|domain| - 1];
      assert s[..|s| - 1] == mailbox + "@" + domain[..|domain| - 1];
      LastAtJoined(mailbox, domain[..|domain| - 1]);
    }
  }

  lemma NotPostmaster(s: string, k: nat)
    requires k < |s| && s[k] == '@'
    ensures !IsPostmaster(s)
  {
    if |s| == |POSTMASTER| { assert !FoldsTo(s[k], POSTMASTER[k]); }
  }

  /** An address splits back into its parts if and only if both are there and the domain has no at-sign. */
  lemma SplitJoinedIff(mailbox: string, domain: string)
    ensures Split(mailbox + "@" + domain) == Some(Parts(mailbox, domain))
            <==> mailbox != "" && domain != "" && '@' !in domain
  {
    var s := mailbox + "@" + domain;
    assert s[|mailbox|] == '@';
    NotPostmaster(s, |mailbox|);
    if '@' !in domain {
      LastAtJoined(mailbox, domain);
      assert s[..|mailbox|] == mailbox && s[|mailbox| + 1..] == domain;
    }
  }

  /** The postmaster, in any case, is split into itself and no domain, and nothing else is without a domain. */
  lemma PostmasterSplit(addr: string)
    ensures Split("postmaster") == Some(Parts("postmaster", "")) && Split("PostMaster") == Some(Parts("PostMaster", ""))
    ensures (Split(addr).Some? && Split(addr).value.domain == "") <==> IsPostmaster(addr)
    ensures IsPostmaster(addr) ==> Split(addr).value.mailbox == addr
  {
    assert IsPostmaster("postmaster");
    assert IsPostmaster("PostMaster");
  }

  /** Every address that splits is its parts put together, but for the postmaster. */
  lemma SplitIsJoined(addr: string)
    requires Split(addr).Some? && !IsPostmaster(addr)
    ensures var p := Split(addr).value;
            addr == p.mailbox + "@" + p.domain && p.mailbox != "" && p.domain != "" && '@' !in p.domain
  {
    var at := LastAt(addr).value;
    assert addr == addr[..at] + [addr[at]] + addr[at + 1..];
  }

  // ---- Quoting ----

  predicate Special(c: char) {
    c in {'(', ')', '<', '>', '[', ']', ':', ';', '@', '\\', ',', '"', ' '}
  }

  function Escape(c: char): string {
    if c == '\\' || c == '"' then ['\\', c] else [c]
  }

  function Escaped(s: string): string {
    if s == "" then "" else Escaped(s[..|s| - 1]) + Escape(s[|s| - 1])
  }

  predicate NeedsQuotes(s: string) {
    exists i :: 0 <= i < |s| && Special(s[i])
  }

  function Quoted(s: string): string {
    if NeedsQuotes(s) then ['"'] + Escaped(s) + ['"'] else s
  }

  lemma {:induction false} EscapedLonger(s: string)
    ensures |Escaped(s)| >= |s|
  {
    if s == "" {
    } else {
      EscapedLonger(s[..|s| - 1]);
    }
  }

  /** A local part stays as it is if and only if it has none of the thirteen characters. */
  lemma QuotedIff(m: string)
    ensures Quoted(m) == m <==> forall c :: c in "()<>[]:;@\\,\" " ==> c !in m
    ensures Quoted(m) != m ==> |Quoted(m)| >= |m| + 2 && Quoted(m)[0] == Quoted(m)[|Quoted(m)| - 1] == '"'
  {
    EscapedLonger(m);
    var specials := "()<>[]:;@\\,\" ";
    assert |specials| == 13;
    forall c ensures Special(c) <==> c in specials { SpecialIs(c); }
    if NeedsQuotes(m) {
      var i :| 0 <= i < |m| && Special(m[i]);
      assert m[i] in specials && m[i] in m;
    }
  }

  lemma SpecialIs(c: char)
    ensures Special(c) <==> c in "()<>[]:;@\\,\" "
  {
    var s := "()<>[]:;@\\,\" ";
    assert s[0] == '(' && s[1] == ')' && s[2] == '<' && s[3] == '>' && s[4] == '[' && s[5] == ']' && s[6] == ':';
    assert s[7] == ';' && s[8] == '@' && s[9] == '\\' && s[10] == ',' && s[11] == '"' && s[12] == ' ';
  }

  method QuoteMbox(mbox: string) returns (r: string)
    ensures r == Quoted(mbox)
  {
    var mailboxEsc, quoted := "", false;
    for i := 0 to |mbox|
      invariant mailboxEsc == Escaped(mbox[..i])
      invariant quoted <==> exists k :: 0 <= k < i && Special(mbox[k])
    {
      assert mbox[..i + 1][..i] == mbox[..i];
      var ch := mbox[i];
      if Special(ch) {
        if ch == '\\' || ch == '"' {
          mailboxEsc := mailboxEsc + ['\\'];
        }
        mailboxEsc := mailboxEsc + [ch];
        quoted := true;
      } else {
        mailboxEsc := mailboxEsc + [ch];
      }
    }
    assert mbox[..|mbox|] == mbox;
    if quoted {
      return ['"'] + mailboxEsc + ['"'];
    }
    return mbox;
  }

  // ---- Unquoting ----

  function Cons(s: string, r: Option<string>): Option<string> {
    if r.None? then None else Some(s + r.value)
  }

  /** Outside quotes: no backslash, no at-sign, and a quote opens a quoted string. */
  function Plain(s: string, i: nat): Option<string>
    requires i <= |s|
    decreases |s| - i
  {
    if i == |s| then Some("")
    else if s[i] == '"' then Inside(s, i + 1)
    else if s[i] == '\\' || s[i] == '@' then None
    else Cons([s[i]], Plain(s, i + 1))
  }

  /** Inside quotes: a backslash protects what follows, and nothing follows the closing quote. */
  function Inside(s: string, i: nat): Option<string>
    requires i <= |s|
    decreases |s| - i
  {
    if i == |s| then Some("")
    else if s[i] == '"' then (if i + 1 == |s| then Some("") else None)
    else if s[i] != '\\' then Cons([s[i]], Inside(s, i + 1))
    else if i + 1 == |s| then Some("")
    else Cons([s[i + 1]], Inside(s, i + 2))
  }

  function Unquoted(s: string): Option<string> {
    if Plain(s, 0) == Some("") then None else Plain(s, 0)
  }

  lemma ConsTwice(a: string, b: string, r: Option<string>)
    ensures Cons(a, Cons(b, r)) == Cons(a + b, r)
  {
    if r.Some? { assert a + (b + r.value) == a + b + r.value; }
  }

  lemma ConsEmpty(r: Option<string>)
    ensures Cons("", r) == r
  {
    if r.Some? { assert "" + r.value == r.value; }
  }

  lemma ConsEnd(s: string)
    ensures Cons(s, Some("")) == Some(s)
  {
    assert s + "" == s;
  }

  method UnquoteMbox(mbox: string) returns (r: Option<string>)
    ensures r == Unquoted(mbox)
  {
    var quoted, escaped, terminatedQuote, mailbox := false, false, false, "";
    ConsEmpty(Plain(mbox, 0));
    for i := 0 to |mbox|
      invariant escaped ==> quoted && i > 0 && mbox[i - 1] == '\\'
      invariant terminatedQuote ==> !quoted && Plain(mbox, 0) == if i == |mbox| then Some(mailbox) else None
      invariant !terminatedQuote && !quoted ==> Plain(mbox, 0) == Cons(mailbox, Plain(mbox, i))
      invariant quoted ==>
                !terminatedQuote && Plain(mbox, 0) == Cons(mailbox, Inside(mbox, if escaped then i - 1 else i))
    {
      var ch := mbox[i];
      if terminatedQuote {
        return None;
      }
      if quoted && escaped {
        ConsTwice(mailbox, [ch], Inside(mbox, i + 1));
      } else if quoted {
        ConsTwice(mailbox, [ch], Inside(mbox, i + 1));
      } else {
        ConsTwice(mailbox, [ch], Plain(mbox, i + 1));
      }
      if ch == '"' && !escaped {
        quoted := !quoted;
        if !quoted {
          ConsEnd(mailbox);
          terminatedQuote := true;
        }
        continue;
      }
      if ch == '\\' && !escaped {
        if !quoted {
          return None;
        }
        escaped := true;
        continue;
      }
      if ch == '@' && !quoted {
        return None;
      }
      escaped := false;
      mailbox := mailbox + [ch];
    }
    ConsEnd(mailbox);
    if |mailbox| == 0 {
      return None;
    }
    return Some(mailbox);
  }

  // ---- The round trip ----

  lemma InsideOne(s: string, at: nat, c: char)
    requires at + |Escape(c)| <= |s| && s[at..at + |Escape(c)|] == Escape(c)
    ensures Inside(s, at) == Cons([c], Inside(s, at + |Escape(c)|))
  {
    var e := s[at..at + |Escape(c)|];
    assert s[at] == e[0] && (|e| == 2 ==> s[at + 1] == e[1]);
  }

  lemma Middle(a: string, b: string, c: string)
    ensures (a + b + c)[|a|..|a| + |b|] == b
  {
  }

  lemma {:induction false} InsideStep(s: string, head: string, c: char, rest: string)
    requires s == head + Escape(c) + rest
    ensures Inside(s, |head|) == Cons([c], Inside(s, |head + Escape(c)|))
  {
    Middle(head, Escape(c), rest);
    InsideOne(s, |head|, c);
  }

  lemma {:induction false} EscapedMore(m: string, n: nat, before: string, rest: string)
    requires |m| == n + 1
    ensures before + Escaped(m) == before + Escaped(m[..n]) + Escape(m[n])
    ensures before + Escaped(m) + rest == before + Escaped(m[..n]) + (Escape(m[n]) + rest)
  {
    var front, e := Escaped(m[..n]), Escape(m[n]);
    assert Escaped(m) == front + e;
    Associate(before, front, e, rest);
  }

  lemma Associate(a: string, b: string, c: string, d: string)
    ensures a + (b + c) == a + b + c && a + (b + c) + d == a + b + (c + d)
  {
    assert a + (b + c) == a + b + c;
  }

  lemma {:induction false} InsideEscaped(s: string, before: string, m: string, rest: string)
    requires s == before + Escaped(m) + rest
    ensures Inside(s, |before|) == Cons(m, Inside(s, |before + Escaped(m)|))
    decreases |m|
  {
    if m == "" {
      ConsEmpty(Inside(s, |before|));
    } else {
      var n := |m| - 1;
      EscapedMore(m, n, before, rest);
      assert m == m[..n] + [m[n]];
      InsideEscaped(s, before, m[..n], Escape(m[n]) + rest);
      InsideStep(s, before + Escaped(m[..n]), m[n], rest);
      ConsTwice(m[..n], [m[n]], Inside(s, |before + Escaped(m)|));
    }
  }

  lemma {:induction false} PlainStays(m: string, i: nat)
    requires !NeedsQuotes(m) && i <= |m|
    ensures Plain(m, i) == Some(m[i..])
    decreases |m| - i
  {
    if i < |m| {
      assert !Special(m[i]);
      PlainStays(m, i + 1);
      assert m[i..] == [m[i]] + m[i + 1..];
    } else {
      assert m[i..] == "";
    }
  }

  /** Unquoting undoes quoting, for every local part. */
  lemma UnquoteQuoted(m: string)
    requires m != ""
    ensures Unquoted(Quoted(m)) == Some(m)
  {
    var q := Quoted(m);
    if NeedsQuotes(m) {
      InsideEscaped(q, ['"'], m, ['"']);
      assert Inside(q, |q| - 1) == Some("");
      assert m + "" == m;
    } else {
      PlainStays(m, 0);
      assert m[0..] == m;
    }
  }

  /** Without quotes a local part is accepted, as itself, if and only if it has no backslash and no at-sign. */
  lemma {:induction false} UnquotePlainIff(s: string)
    requires '"' !in s
    ensures Unquoted(s) == if s != "" && '\\' !in s && '@' !in s then Some(s) else None
  {
    PlainIff(s, 0);
    assert s[0..] == s;
  }

  lemma {:induction false} PlainIff(s: string, i: nat)
    requires '"' !in s && i <= |s|
    ensures Plain(s, i) == if '\\' !in s[i..] && '@' !in s[i..] then Some(s[i..]) else None
    decreases |s| - i
  {
    if i == |s| {
      assert s[i..] == "";
    } else {
      PlainIff(s, i + 1);
      assert s[i..] == [s[i]] + s[i + 1..] && s[i] in s;
    }
  }

  /** Nothing may follow the closing quote; the closing quote itself may be missing at the end. */
  lemma {:induction false} BehindQuote(m: string, rest: string)
    requires m != ""
    ensures Unquoted(['"'] + Escaped(m) + ['"'] + rest) == if rest == "" then Some(m) else None
    ensures Unquoted(['"'] + Escaped(m)) == Some(m)
  {
    var s := ['"'] + Escaped(m) + ['"'] + rest;
    assert s == ['"'] + Escaped(m) + (['"'] + rest);
    InsideEscaped(s, ['"'], m, ['"'] + rest);
    assert |['"'] + Escaped(m)| < |s| && s[|['"'] + Escaped(m)|] == '"';
    ConsEnd(m);
    var t := ['"'] + Escaped(m);
    assert t == ['"'] + Escaped(m) + "";
    InsideEscaped(t, ['"'], m, "");
  }

  /** A quoted local part at any domain: splitting and unquoting give back exactly what was put in. */
  lemma QuotedAddress(m: string, d: string)
    requires m != "" && d != "" && '@' !in d
    ensures var addr := Quoted(m) + "@" + d;
            Split(addr) == Some(Parts(Quoted(m), d)) && Unquoted(Split(addr).value.mailbox) == Some(m)
  {
    UnquoteQuoted(m);
    SplitJoinedIff(Quoted(m), d);
  }

  /** Different local parts stay different when quoted. */
  lemma QuotedDiffer(m: string, n: string)
    requires m != "" && n != "" && Quoted(m) == Quoted(n)
    ensures m == n
  {
    UnquoteQuoted(m);
    UnquoteQuoted(n);
  }
}
