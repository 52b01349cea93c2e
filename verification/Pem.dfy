/** Repair of PEM keys that lost their line breaks in an environment variable. */
module Pem {
  import opened Prelude

  /** unicode.IsSpace. */
  predicate IsSpace(c: char) {
    var u := c as int;
    || 0x09 <= u <= 0x0D || u == 0x20 || u == 0x85 || u == 0xA0
    || u == 0x1680 || 0x2000 <= u <= 0x200A || u == 0x2028 || u == 0x2029 || u == 0x202F || u == 0x205F || u == 0x3000
  }

  /** The white space of Unicode. */
  lemma SpacesListed(c: char)
    ensures IsSpace(c) <==>
            c as int in {9, 10, 11, 12, 13, 32, 0x85, 0xA0, 0x1680, 0x2000, 0x2001, 0x2002, 0x2003, 0x2004, 0x2005,
              0x2006,
                         0x2007, 0x2008, 0x2009, 0x200A, 0x2028, 0x2029, 0x202F, 0x205F, 0x3000}
  {
  }

  function TrimFront(s: string): string {
    if s != "" && IsSpace(s[0]) then TrimFront(s[1..]) else s
  }

  function TrimBack(s: string): string {
    if s != "" && IsSpace(s[|s| - 1]) then TrimBack(s[..|s| - 1]) else s
  }

  function TrimSpace(s: string): string {
    TrimBack(TrimFront(s))
  }

  predicate Trimmed(s: string) {
    s == "" || (!IsSpace(s[0]) && !IsSpace(s[|s| - 1]))
  }

  predicate OccursAt(s: string, sub: string, i: int) {
    0 <= i && i + |sub| <= |s| && s[i..i + |sub|] == sub
  }

  lemma OccursMeans(s: string, sub: string, i: nat)
    ensures OccursAt(s, sub, i) <==> exists a, b :: s == a + sub + b && |a| == i
  {
    if OccursAt(s, sub, i) {
      assert s == s[..i] + sub + s[i + |sub|..];
    }
  }

  function Index(s: string, sub: string): (r: Option<nat>)
    ensures r.Some? ==> OccursAt(s, sub, r.value) && forall j :: 0 <= j < r.value ==> !OccursAt(s, sub, j)
    ensures r.None? ==> forall j :: !OccursAt(s, sub, j)
  {
    IndexFrom(s, sub, 0)
  }

  function IndexFrom(s: string, sub: string, from: nat): (r: Option<nat>)
    requires from <= |s|
    ensures r.Some? ==>
      from <= r.value && OccursAt(s, sub, r.value) && forall j :: from <= j < r.value ==> !OccursAt(s, sub, j)
    ensures r.None? ==> forall j :: from <= j ==> !OccursAt(s, sub, j)
    decreases |s| - from
  {
    if OccursAt(s, sub, from) then Some(from)
    else if from == |s| then None
    else IndexFrom(s, sub, from + 1)
  }

  function LastIndex(s: string, sub: string): (r: Option<nat>)
    ensures r.Some? ==> OccursAt(s, sub, r.value) && forall j :: r.value < j ==> !OccursAt(s, sub, j)
    ensures r.None? ==> forall j :: !OccursAt(s, sub, j)
  {
    LastIndexUpTo(s, sub, |s|)
  }

  function LastIndexUpTo(s: string, sub: string, to: nat): (r: Option<nat>)
    ensures r.Some? ==>
      r.value <= to && OccursAt(s, sub, r.value) && forall j :: r.value < j <= to ==> !OccursAt(s, sub, j)
    ensures r.None? ==> forall j :: j <= to ==> !OccursAt(s, sub, j)
  {
    if OccursAt(s, sub, to) then Some(to) else if to == 0 then None else LastIndexUpTo(s, sub, to - 1)
  }

  const BEGIN := "-----BEGIN"
  const END := "-----END"
  const DASHES := "-----"

  /** Where a one-line PEM is broken: after the header and before the footer. */
  function Breaks(pem: string): Option<(nat, nat)>
    requires OccursAt(pem, BEGIN, 0)
  {
    match Index(pem[5..], DASHES)
    case None => None
    case Some(firstDash) =>
      var headerEnd := 5 + firstDash + 5;
      match LastIndex(pem, END)
      case None => None
      case Some(footerStart) => if footerStart <= headerEnd then None else Some((headerEnd, footerStart))
  }

  function EnsureNewlines(text: string): string {
    var pem := TrimSpace(text);
    if !OccursAt(pem, BEGIN, 0) || '\n' in pem then pem
    else
      match Breaks(pem)
      case None => pem
      case Some((headerEnd, footerStart)) =>
        pem[..headerEnd] + "\n" + pem[headerEnd..footerStart] + "\n" + pem[footerStart..]
  }

  lemma {:induction false} FrontTrimmed(s: string)
    ensures TrimFront(s) == "" || !IsSpace(TrimFront(s)[0])
  {
    if s != "" && IsSpace(s[0]) {
      FrontTrimmed(s[1..]);
    }
  }

  lemma {:induction false} BackTrimmed(s: string)
    ensures TrimBack(s) <= s
    ensures TrimBack(s) == "" || !IsSpace(TrimBack(s)[|TrimBack(s)| - 1])
    decreases |s|
  {
    if s != "" && IsSpace(s[|s| - 1]) {
      BackTrimmed(s[..|s| - 1]);
    }
  }

  predicate Spaces(s: string) {
    forall i :: 0 <= i < |s| ==> IsSpace(s[i])
  }

  /** Trimming takes white space from both ends, all of it, and nothing else. */
  lemma TrimsBothEnds(s: string)
    ensures Trimmed(TrimSpace(s))
    ensures exists a, b :: s == a + TrimSpace(s) + b && Spaces(a) && Spaces(b)
  {
    FrontTrimmed(s);
    BackTrimmed(TrimFront(s));
    var a := FrontTaken(s);
    var b := BackTaken(TrimFront(s));
    assert s == a + TrimSpace(s) + b;
  }

  lemma {:induction false} FrontTaken(s: string) returns (a: string)
    ensures s == a + TrimFront(s) && Spaces(a)
  {
    a := "";
    if s != "" && IsSpace(s[0]) {
      a := FrontTaken(s[1..]);
      a := [s[0]] + a;
    }
  }

  lemma {:induction false} BackTaken(s: string) returns (b: string)
    ensures s == TrimBack(s) + b && Spaces(b)
    decreases |s|
  {
    b := "";
    if s != "" && IsSpace(s[|s| - 1]) {
      b := BackTaken(s[..|s| - 1]);
      b := b + [s[|s| - 1]];
    }
  }

  /** A break is inside the text: after "-----BEGIN" and its closing dashes, and strictly before the last "-----END". */
  lemma BreaksInside(pem: string)
    requires OccursAt(pem, BEGIN, 0) && Breaks(pem).Some?
    ensures var (headerEnd, footerStart) := Breaks(pem).value;
            && 10 <= headerEnd < footerStart < |pem|
            && OccursAt(pem, DASHES, headerEnd - 5)
            && (forall j :: 5 <= j < headerEnd - 5 ==> !OccursAt(pem, DASHES, j))
            && OccursAt(pem, END, footerStart) && (forall j :: footerStart < j ==> !OccursAt(pem, END, j))
  {
    forall j ensures 5 <= j ==> (OccursAt(pem, DASHES, j) <==> OccursAt(pem[5..], DASHES, j - 5)) {
      DroppedStart(pem, DASHES, j);
    }
  }

  lemma DroppedStart(s: string, sub: string, j: int)
    requires |s| >= 5
    ensures 5 <= j ==> (OccursAt(s, sub, j) <==> OccursAt(s[5..], sub, j - 5))
  {
    if 5 <= j && j + |sub| <= |s| {
      assert s[5..][j - 5..j - 5 + |sub|] == s[j..j + |sub|];
    }
  }

  /** A header ends at `h`, and a footer begins further on at `f`. */
  predicate HeaderAndFooter(pem: string, h: nat, f: nat) {
    10 <= h < f && OccursAt(pem, DASHES, h - 5) && OccursAt(pem, END, f)
  }

  /** There are breaks exactly when some dashes that may close the header come before some footer. */
  lemma BreaksExactly(pem: string)
    requires OccursAt(pem, BEGIN, 0)
    ensures Breaks(pem).Some? <==> exists h: nat, f: nat :: HeaderAndFooter(pem, h, f)
  {
    if Breaks(pem).Some? {
      BreaksInside(pem);
      assert HeaderAndFooter(pem, Breaks(pem).value.0, Breaks(pem).value.1);
    }
    if h: nat, f: nat :| HeaderAndFooter(pem, h, f) {
      DroppedStart(pem, DASHES, h - 5);
      assert OccursAt(pem[5..], DASHES, h - 10);
    }
  }

  lemma PrefixStays(pem: string, out: string, n: nat)
    requires OccursAt(pem, BEGIN, 0) && 10 <= n <= |pem| && n <= |out| && out[..n] == pem[..n]
    ensures OccursAt(out, BEGIN, 0)
  {
  }

  /** Repairing twice is repairing once, on every string. */
  lemma Idempotent(text: string)
    ensures EnsureNewlines(EnsureNewlines(text)) == EnsureNewlines(text)
  {
    var pem, out := TrimSpace(text), EnsureNewlines(text);
    TrimsBothEnds(text);
    if out == pem {
      assert TrimFront(pem) == pem && TrimBack(pem) == pem;
    } else {
      BreaksInside(pem);
      var (headerEnd, footerStart) := Breaks(pem).value;
      assert out[headerEnd] == '\n';
      assert out[..headerEnd] == pem[..headerEnd];
      assert out[0] == pem[0] && out[|out| - 1] == pem[|pem| - 1];
      PrefixStays(pem, out, headerEnd);
      assert TrimFront(out) == out && TrimBack(out) == out;
    }
  }

  function WithoutNewlines(s: string): string {
    if s == "" then "" else (if s[0] == '\n' then "" else [s[0]]) + WithoutNewlines(s[1..])
  }

  lemma {:induction false} NothingToDrop(s: string)
    requires '\n' !in s
    ensures WithoutNewlines(s) == s
  {
    if s != "" {
      NothingToDrop(s[1..]);
    }
  }

  lemma {:induction false} DropAppend(a: string, b: string)
    ensures WithoutNewlines(a + b) == WithoutNewlines(a) + WithoutNewlines(b)
  {
    if a == "" {
      assert a + b == b;
    } else {
      DropAppend(a[1..], b);
      assert (a + b)[1..] == a[1..] + b;
      var head := if a[0] == '\n' then "" else [a[0]];
      assert head + (WithoutNewlines(a[1..]) + WithoutNewlines(b))
          == (head + WithoutNewlines(a[1..])) + WithoutNewlines(b);
    }
  }

  lemma DropNewline(a: string)
    requires '\n' !in a
    ensures WithoutNewlines(a + "\n") == a
  {
    NothingToDrop(a);
    DropAppend(a, "\n");
    assert "\n"[1..] == "" && WithoutNewlines("\n") == "";
    assert a + "" == a;
  }

  lemma RepairDrops(header: string, content: string, footer: string)
    requires '\n' !in header && '\n' !in content && '\n' !in footer
    ensures WithoutNewlines(header + "\n" + content + "\n" + footer) == header + content + footer
  {
    DropNewline(header);
    DropNewline(content);
    NothingToDrop(footer);
    var head, middle := header + "\n", content + "\n";
    DropAppend(head, middle);
    DropAppend(head + middle, footer);
    assert head + content + "\n" == head + middle;
  }

  /**
    The repair changes the trimmed text only when it is a single line with a header and a later footer; then it
    inserts one newline after the header and one before the footer, and dropping the two gives the text back.
   */
  lemma InsertsTwoNewlines(text: string)
    ensures var pem, out := TrimSpace(text), EnsureNewlines(text);
            && (out != pem <==> OccursAt(pem, BEGIN, 0) && '\n' !in pem && Breaks(pem).Some?)
            && (out != pem ==>
                  var (headerEnd, footerStart) := Breaks(pem).value;
                  out == pem[..headerEnd] + "\n" + pem[headerEnd..footerStart] + "\n" + pem[footerStart..]
                  && WithoutNewlines(out) == pem)
  {
    var pem, out := TrimSpace(text), EnsureNewlines(text);
    if OccursAt(pem, BEGIN, 0) && '\n' !in pem && Breaks(pem).Some? {
      BreaksInside(pem);
      var (headerEnd, footerStart) := Breaks(pem).value;
      var header, content, footer := pem[..headerEnd], pem[headerEnd..footerStart], pem[footerStart..];
      assert |out| == |pem| + 2;
      assert pem == header + content + footer;
      RepairDrops(header, content, footer);
    }
  }
}
