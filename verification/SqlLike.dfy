/** SQLite's LIKE: `%` stands for any text, `_` for any character, ASCII letters match in either case. */
module SqlLike {

  function Fold(c: char): char { if 'A' <= c <= 'Z' then (c as int + 32) as char else c }

  predicate Likes(text: string, pattern: string)
    decreases |text| + |pattern|
  {
    if pattern == "" then text == ""
    else if pattern[0] == '%' then Likes(text, pattern[1..]) || (text != "" && Likes(text[1..], pattern))
    else text != "" && (pattern[0] == '_' || Fold(text[0]) == Fold(pattern[0])) && Likes(text[1..], pattern[1..])
  }

  /** No wildcards. */
  predicate Plain(x: string) { forall i :: 0 <= i < |x| ==> x[i] != '%' && x[i] != '_' }

  /** The same text but for the case of ASCII letters. */
  predicate SameFolded(a: string, b: string) { |a| == |b| && forall i :: 0 <= i < |a| ==> Fold(a[i]) == Fold(b[i]) }

  lemma {:induction false} PlainIsItself(text: string, x: string)
    requires Plain(x)
    ensures Likes(text, x) <==> SameFolded(text, x)
    decreases |x|
  {
    if x != "" && text != "" {
      PlainIsItself(text[1..], x[1..]);
      assert forall i :: 0 < i < |x| ==> x[1..][i - 1] == x[i];
      assert forall i :: 0 < i < |text| ==> text[1..][i - 1] == text[i];
    }
  }

  lemma {:induction false} AnyText(text: string)
    ensures Likes(text, "%")
  {
    if text != "" { AnyText(text[1..]); }
  }

  /** `x%` is matched by the texts that begin with a match of `x`. */
  lemma {:induction false} BeginsWith(text: string, x: string)
    ensures Likes(text, x + "%") <==> exists k :: 0 <= k <= |text| && Likes(text[..k], x)
    decreases |text| + |x|
  {
    if x == "" {
      assert x + "%" == "%" && text[..0] == "";
      AnyText(text);
    } else {
      var y := x[1..];
      assert (x + "%")[0] == x[0] && (x + "%")[1..] == y + "%";
      if x[0] == '%' {
        BeginsWith(text, y);
        if text != "" { BeginsWith(text[1..], x); }
        BeginsAny(text, x);
      } else if text != "" {
        BeginsWith(text[1..], y);
        BeginsOne(text, x);
      } else {
        assert text[..0] == "";
      }
    }
  }

  lemma BeginsAny(text: string, x: string)
    requires x != "" && x[0] == '%'
    ensures (exists k :: 0 <= k <= |text| && Likes(text[..k], x)) <==>
            (exists k :: 0 <= k <= |text| && Likes(text[..k], x[1..])) ||
            (text != "" && exists k :: 0 <= k <= |text[1..]| && Likes(text[1..][..k], x))
  {
    var y := x[1..];
    forall k | 0 <= k <= |text| && Likes(text[..k], x)
      ensures Likes(text[..k], y) || (k > 0 && Likes(text[1..][..k - 1], x))
    {
      if k > 0 { assert text[..k][1..] == text[1..][..k - 1]; }
    }
    if text != "" {
      forall k | 0 <= k <= |text[1..]| && Likes(text[1..][..k], x) ensures Likes(text[..k + 1], x) {
        assert text[..k + 1][1..] == text[1..][..k];
      }
    }
  }

  lemma BeginsOne(text: string, x: string)
    requires x != "" && x[0] != '%' && text != ""
    ensures (exists k :: 0 <= k <= |text| && Likes(text[..k], x)) <==>
            (x[0] == '_' || Fold(text[0]) == Fold(x[0])) && exists k :: 0 <= k <= |text[1..]| && Likes(text[1..][..k], x[1..])
  {
    forall k | 0 <= k <= |text| && Likes(text[..k], x) ensures k > 0 && Likes(text[1..][..k - 1], x[1..]) {
      assert text[..k] != "";
      assert text[..k][1..] == text[1..][..k - 1];
    }
    forall k | 0 <= k <= |text[1..]| && Likes(text[1..][..k], x[1..]) && (x[0] == '_' || Fold(text[0]) == Fold(x[0]))
      ensures Likes(text[..k + 1], x)
    {
      assert text[..k + 1][1..] == text[1..][..k];
    }
  }

  /** `%x` is matched by the texts that end with a match of `x`. */
  lemma {:induction false} Ends(text: string, x: string)
    ensures Likes(text, "%" + x) <==> exists k :: 0 <= k <= |text| && Likes(text[k..], x)
    decreases |text|
  {
    assert ("%" + x)[1..] == x;
    assert text[0..] == text;
    if text != "" {
      Ends(text[1..], x);
      assert forall k :: 0 < k <= |text| ==> text[1..][k - 1..] == text[k..];
      forall k | 0 <= k <= |text[1..]| && Likes(text[1..][k..], x) ensures Likes(text[k + 1..], x) {
        assert text[1..][k..] == text[k + 1..];
      }
    }
  }

  /** `%x%` is matched by the texts that hold a match of `x`. */
  lemma Holds(text: string, x: string)
    ensures Likes(text, "%" + x + "%") <==> exists i, j :: 0 <= i <= j <= |text| && Likes(text[i..j], x)
  {
    assert "%" + x + "%" == "%" + (x + "%");
    Ends(text, x + "%");
    forall i | 0 <= i <= |text| && Likes(text[i..], x + "%") ensures exists j :: i <= j <= |text| && Likes(text[i..j], x) {
      BeginsWith(text[i..], x);
      var k :| 0 <= k <= |text[i..]| && Likes(text[i..][..k], x);
      assert text[i..][..k] == text[i..i + k];
    }
    forall i, j | 0 <= i <= j <= |text| && Likes(text[i..j], x) ensures Likes(text[i..], x + "%") {
      BeginsWith(text[i..], x);
      assert text[i..][..j - i] == text[i..j];
    }
  }

  /** Case is folded for the letters A to Z and for nothing else. */
  lemma FoldIs(c: char, i: nat)
    requires i < 26
    ensures Fold("ABCDEFGHIJKLMNOPQRSTUVWXYZ"[i]) == "abcdefghijklmnopqrstuvwxyz"[i]
    ensures c !in "ABCDEFGHIJKLMNOPQRSTUVWXYZ" ==> Fold(c) == c
  {
    if 'A' <= c <= 'Z' { assert "ABCDEFGHIJKLMNOPQRSTUVWXYZ"[c as int - 'A' as int] == c; }
  }
}
