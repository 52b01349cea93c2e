/** Splitting a sequence at a separator, and joining the parts again. */
module Splitting {
  function Split<T(==)>(text: seq<T>, sep: T): (parts: seq<seq<T>>)
    ensures |parts| > 0
  {
    if text == [] then [[]]
    else
      var rest := Split(text[1..], sep);
      if text[0] == sep then [[]] + rest else [[text[0]] + rest[0]] + rest[1..]
  }

  function Join<T>(parts: seq<seq<T>>, sep: T): seq<T>
    requires |parts| > 0
  {
    if |parts| == 1 then parts[0] else parts[0] + [sep] + Join(parts[1..], sep)
  }

  lemma {:induction false} SplitAt<T>(a: seq<T>, b: seq<T>, sep: T)
    requires sep !in a
    ensures Split(a + [sep] + b, sep) == [a] + Split(b, sep)
  {
    var text := a + [sep] + b;
    if a == [] {
      assert text[1..] == b;
    } else {
      assert text[1..] == a[1..] + [sep] + b;
      SplitAt(a[1..], b, sep);
      assert a == [a[0]] + a[1..];
    }
  }

  lemma {:induction false} SplitNone<T>(a: seq<T>, sep: T)
    requires sep !in a
    ensures Split(a, sep) == [a]
  {
    if a != [] {
      SplitNone(a[1..], sep);
      assert a == [a[0]] + a[1..];
    }
  }

  lemma {:induction false} SplitJoin<T>(text: seq<T>, sep: T)
    ensures Join(Split(text, sep), sep) == text
    ensures forall i :: 0 <= i < |Split(text, sep)| ==> sep !in Split(text, sep)[i]
  {
    if text != [] {
      var rest := Split(text[1..], sep);
      SplitJoin(text[1..], sep);
      assert text == [text[0]] + text[1..];
      if text[0] == sep {
        assert ([[]] + rest)[1..] == rest;
        assert [] + [sep] == [sep];
      } else {
        var parts := [[text[0]] + rest[0]] + rest[1..];
        assert parts[1..] == rest[1..];
        if |rest| > 1 {
          assert ([text[0]] + rest[0]) + [sep] + Join(rest[1..], sep)
              == [text[0]] + (rest[0] + [sep] + Join(rest[1..], sep));
        }
      }
    }
  }

  lemma {:induction false} JoinSnoc<T>(parts: seq<seq<T>>, last: seq<T>, sep: T)
    requires |parts| > 0
    ensures Join(parts + [last], sep) == Join(parts, sep) + [sep] + last
  {
    if |parts| == 1 {
      assert (parts + [last])[1..] == [last];
    } else {
      assert (parts + [last])[1..] == parts[1..] + [last];
      JoinSnoc(parts[1..], last, sep);
      assert parts[0] + [sep] + (Join(parts[1..], sep) + [sep] + last)
          == parts[0] + [sep] + Join(parts[1..], sep) + [sep] + last;
    }
  }

  lemma {:induction false} JoinHasNo<T>(parts: seq<seq<T>>, sep: T, c: T, i: nat)
    requires |parts| > 0 && i < |parts| && c !in Join(parts, sep) && c != sep
    ensures c !in Join(parts[..i + 1], sep)
    decreases |parts|
  {
    if |parts| == 1 {
      assert parts[..1] == parts;
    } else {
      if i == 0 {
        assert parts[..1] == [parts[0]];
      } else {
        JoinHasNo(parts[1..], sep, c, i - 1);
        assert parts[..i + 1][1..] == parts[1..][..i];
      }
    }
  }

  lemma {:induction false} SplitSnoc<T>(text: seq<T>, sep: T)
    ensures Split(text + [sep], sep) == Split(text, sep) + [[]]
  {
    if text == [] {
      assert ([] + [sep])[1..] == [];
    } else {
      SplitSnoc(text[1..], sep);
      assert (text + [sep])[1..] == text[1..] + [sep];
    }
  }
}
