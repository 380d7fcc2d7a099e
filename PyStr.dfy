/** The Python string builtins the poem server calls, `sep.join(lines)` and
    `s.strip()`, and `Split`, which behaves like `s.split(sep)` for a
    one-character separator. The server never calls `Split`; it is the
    reference inverse of `Join`, used to state the line round trip. */
module PyStr {

  /** Sum of the lengths of all strings in `lines`. */
  function TotalLength(lines: seq<string>): nat
  {
    if |lines| == 0 then 0 else |lines[0]| + TotalLength(lines[1..])
  }

  /** `sep.join(lines)`: the lines in order, with `sep` between consecutive ones. */
  function Join(lines: seq<string>, sep: string): (r: string)
    ensures |r| == TotalLength(lines) + (if |lines| == 0 then 0 else (|lines| - 1) * |sep|)
    ensures |lines| > 0 ==> lines[0] <= r
  {
    if |lines| == 0 then ""
    else if |lines| == 1 then lines[0]
    else lines[0] + sep + Join(lines[1..], sep)
  }

  /** `s.split(c)`: the maximal pieces of `s` between occurrences of `c`;
      there is always one piece more than there are occurrences of `c`. */
  function Split(s: string, c: char): (r: seq<string>)
    ensures |r| > 0
    ensures forall i :: 0 <= i < |r| ==> c !in r[i]
  {
    if |s| == 0 then [""]
    else
      var rest := Split(s[1..], c);
      if s[0] == c then [""] + rest else [[s[0]] + rest[0]] + rest[1..]
  }

  /** Prepending text to the first line prepends it to the joined text. */
  lemma JoinPrependFirst(a: string, x: string, tail: seq<string>, sep: string)
    ensures Join([a + x] + tail, sep) == a + Join([x] + tail, sep)
  {
  }

  /** Joining the pieces of a split with the separator gives back the text. */
  lemma {:induction false} JoinSplit(s: string, c: char)
    ensures Join(Split(s, c), [c]) == s
  {
    if |s| > 0 {
      var rest := Split(s[1..], c);
      JoinSplit(s[1..], c);
      if s[0] == c {
        assert ([""] + rest)[1..] == rest;
        assert Join([""] + rest, [c]) == "" + [c] + Join(rest, [c]);
        assert s == [c] + s[1..];
      } else {
        assert rest == [rest[0]] + rest[1..];
        JoinPrependFirst([s[0]], rest[0], rest[1..], [c]);
        assert s == [s[0]] + s[1..];
      }
    }
  }

  /** Splitting text that starts with a separator-free piece `x`. */
  lemma {:induction false} SplitFreePrefix(x: string, t: string, c: char)
    requires c !in x
    ensures Split(x + t, c) == [x + Split(t, c)[0]] + Split(t, c)[1..]
  {
    if |x| > 0 {
      SplitFreePrefix(x[1..], t, c);
      assert (x + t)[1..] == x[1..] + t;
      assert (x + t)[0] == x[0];
      assert [x[0]] + (x[1..] + Split(t, c)[0]) == x + Split(t, c)[0];
    } else {
      assert x + t == t;
      assert x + Split(t, c)[0] == Split(t, c)[0];
      assert Split(t, c) == [Split(t, c)[0]] + Split(t, c)[1..];
    }
  }

  /** Splitting joined lines recovers them, provided no line holds the separator. */
  lemma {:induction false} SplitJoin(lines: seq<string>, c: char)
    requires |lines| > 0
    requires forall i :: 0 <= i < |lines| ==> c !in lines[i]
    ensures Split(Join(lines, [c]), c) == lines
  {
    if |lines| == 1 {
      SplitFreePrefix(lines[0], "", c);
      assert lines[0] + "" == lines[0];
    } else {
      var y := Join(lines[1..], [c]);
      SplitJoin(lines[1..], c);
      assert Join(lines, [c]) == lines[0] + ([c] + y);
      SplitFreePrefix(lines[0], [c] + y, c);
      assert ([c] + y)[1..] == y;
      assert Split([c] + y, c) == [""] + Split(y, c);
      assert lines[0] + "" == lines[0];
      assert lines == [lines[0]] + lines[1..];
    }
  }

  /** Joining a leading run of the lines gives a prefix of joining them all. */
  lemma {:induction false} JoinPrefix(lines: seq<string>, k: nat, sep: string)
    requires k <= |lines|
    ensures Join(lines[..k], sep) <= Join(lines, sep)
  {
    if k == |lines| {
      assert lines[..k] == lines;
    } else if k == 1 {
      assert lines[..k] == [lines[0]];
    } else if k > 1 {
      JoinPrefix(lines[1..], k - 1, sep);
      assert lines[..k][1..] == lines[1..][..k - 1];
    }
  }

  /** The characters Python's `str.strip()` removes (`str.isspace()` holds of them). */
  predicate IsSpace(c: char)
  {
    ('\t' <= c <= '\r') || ('\U{1C}' <= c <= '\U{1F}') || c == ' ' ||
    c == '\U{85}' || c == '\U{A0}' || c == '\U{1680}' ||
    ('\U{2000}' <= c <= '\U{200A}') || c == '\U{2028}' || c == '\U{2029}' ||
    c == '\U{202F}' || c == '\U{205F}' || c == '\U{3000}'
  }

  /** `s.lstrip()`: drops the leading whitespace and nothing else. */
  function TrimStart(s: string): (r: string)
    ensures |r| <= |s| && r == s[|s| - |r|..]
    ensures |r| > 0 ==> !IsSpace(r[0])
    ensures forall i :: 0 <= i < |s| - |r| ==> IsSpace(s[i])
  {
    if |s| > 0 && IsSpace(s[0]) then TrimStart(s[1..]) else s
  }

  /** `s.rstrip()`: drops the trailing whitespace and nothing else. */
  function TrimEnd(s: string): (r: string)
    ensures |r| <= |s| && r == s[..|r|]
    ensures |r| > 0 ==> !IsSpace(r[|r| - 1])
    ensures forall i :: |r| <= i < |s| ==> IsSpace(s[i])
  {
    if |s| > 0 && IsSpace(s[|s| - 1]) then TrimEnd(s[..|s| - 1]) else s
  }

  /** `s.strip()`: the part of `s` left after dropping whitespace at both ends. */
  function Strip(s: string): (r: string)
    ensures |r| > 0 ==> !IsSpace(r[0]) && !IsSpace(r[|r| - 1])
  {
    TrimEnd(TrimStart(s))
  }

  predicate AllSpace(w: string)
  {
    forall i :: 0 <= i < |w| ==> IsSpace(w[i])
  }

  /** `s` is whitespace, then `r` from index `i` on, then whitespace. */
  predicate SurroundedAt(s: string, i: int, r: string)
  {
    0 <= i <= |s| - |r| &&
    AllSpace(s[..i]) && s[i..i + |r|] == r && AllSpace(s[i + |r|..])
  }

  /** Strip cuts `s` into leading whitespace, the result, and trailing whitespace. */
  lemma StripSplitsText(s: string)
    ensures exists i :: SurroundedAt(s, i, Strip(s))
  {
    var t := TrimStart(s);
    var r := TrimEnd(t);
    var i := |s| - |t|;
    assert r == Strip(s);
    assert AllSpace(s[..i]) by {
      forall k | 0 <= k < i ensures IsSpace(s[..i][k]) {
        assert s[..i][k] == s[k];
      }
    }
    assert s[i..i + |r|] == r by {
      assert s[i..] == t;
      assert s[i..i + |r|] == t[..|r|];
    }
    assert AllSpace(s[i + |r|..]) by {
      assert s[i + |r|..] == t[|r|..];
      forall k | 0 <= k < |t| - |r| ensures IsSpace(t[|r|..][k]) {
        assert t[|r|..][k] == t[|r| + k];
      }
    }
    assert SurroundedAt(s, i, r);
  }

  lemma {:induction false} TrimStartSkipsSpace(w: string, x: string)
    requires AllSpace(w)
    requires |x| > 0 ==> !IsSpace(x[0])
    ensures TrimStart(w + x) == x
  {
    if |w| > 0 {
      assert (w + x)[1..] == w[1..] + x;
      TrimStartSkipsSpace(w[1..], x);
    } else {
      assert w + x == x;
    }
  }

  lemma {:induction false} TrimEndSkipsSpace(x: string, w: string)
    requires AllSpace(w)
    requires |x| > 0 ==> !IsSpace(x[|x| - 1])
    ensures TrimEnd(x + w) == x
  {
    if |w| > 0 {
      assert (x + w)[..|x + w| - 1] == x + w[..|w| - 1];
      TrimEndSkipsSpace(x, w[..|w| - 1]);
    } else {
      assert x + w == x;
    }
  }

  /** Strip is determined by its specification: whitespace around text that
      neither starts nor ends with whitespace is exactly what it removes. */
  lemma StripUnique(lead: string, x: string, trail: string)
    requires AllSpace(lead) && AllSpace(trail)
    requires |x| > 0 ==> !IsSpace(x[0]) && !IsSpace(x[|x| - 1])
    ensures Strip(lead + x + trail) == x
  {
    if |x| > 0 {
      assert lead + x + trail == lead + (x + trail);
      TrimStartSkipsSpace(lead, x + trail);
      TrimEndSkipsSpace(x, trail);
    } else {
      assert lead + x + trail == lead + trail;
      assert AllSpace(lead + trail);
      TrimStartSkipsSpace(lead + trail, "");
      assert lead + trail + "" == lead + trail;
    }
  }

  /** Stripping twice is the same as stripping once. */
  lemma StripIdempotent(s: string)
    ensures Strip(Strip(s)) == Strip(s)
  {
    var r := Strip(s);
    StripUnique("", r, "");
    assert "" + r + "" == r;
  }
}
