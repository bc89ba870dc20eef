/** Python string operations the service relies on: `str.isspace`, `str.strip`,
    `" ".join` and the `[x.strip() for x in xs if x.strip()]` idiom. */
module Text {

  /** The code points `str.isspace` (and `\s` in a `str` pattern) accept. */
  predicate IsSpace(c: char) {
    var n := c as int;
    || 0x09 <= n <= 0x0D || 0x1C <= n <= 0x20 || n == 0x85 || n == 0xA0 || n == 0x1680
    || 0x2000 <= n <= 0x200A || 0x2028 <= n <= 0x2029 || n == 0x202F || n == 0x205F || n == 0x3000
  }

  /** The same code points, one by one. */
  lemma SpacesAre(c: char)
    ensures IsSpace(c)
            <==> c as int in {9, 10, 11, 12, 13, 28, 29, 30, 31, 32, 133, 160, 5760, 8192, 8193, 8194, 8195, 8196,
                              8197, 8198, 8199, 8200, 8201, 8202, 8232, 8233, 8239, 8287, 12288}
  { }

  predicate Blank(s: string) {
    forall i | 0 <= i < |s| :: IsSpace(s[i])
  }

  /** The non-whitespace characters of `s`, in order. */
  function Visible(s: string): string {
    if s == "" then "" else (if IsSpace(s[0]) then "" else [s[0]]) + Visible(s[1..])
  }

  function VisibleAll(ss: seq<string>): string {
    if ss == [] then "" else Visible(ss[0]) + VisibleAll(ss[1..])
  }

  function TrimLeft(s: string): (r: string)
    ensures |r| <= |s|
    ensures s != "" && IsSpace(s[0]) ==> |r| < |s|
  {
    if s != "" && IsSpace(s[0]) then TrimLeft(s[1..]) else s
  }

  function TrimRight(s: string): (r: string)
    ensures |r| <= |s| && r == s[..|r|]
  {
    if s != "" && IsSpace(s[|s| - 1]) then TrimRight(s[..|s| - 1]) else s
  }

  function Strip(s: string): string {
    TrimRight(TrimLeft(s))
  }

  /** No leading and no trailing whitespace. */
  predicate Stripped(s: string) {
    s == "" || (!IsSpace(s[0]) && !IsSpace(s[|s| - 1]))
  }

  /** Every string is non-empty and stripped. */
  ghost predicate Tidy(ss: seq<string>) {
    forall i | 0 <= i < |ss| :: ss[i] != "" && Stripped(ss[i])
  }

  function Join(ss: seq<string>): string {
    if ss == [] then "" else if |ss| == 1 then ss[0] else ss[0] + " " + Join(ss[1..])
  }

  /** `[x.strip() for x in ss if x.strip()]` */
  function StripAll(ss: seq<string>): seq<string> {
    if ss == [] then [] else (if Strip(ss[0]) == "" then [] else [Strip(ss[0])]) + StripAll(ss[1..])
  }

  lemma {:induction false} VisibleConcat(a: string, b: string)
    ensures Visible(a + b) == Visible(a) + Visible(b)
  {
    if a == "" {
      assert a + b == b;
    } else {
      assert (a + b)[1..] == a[1..] + b;
      VisibleConcat(a[1..], b);
    }
  }

  lemma {:induction false} VisibleAllConcat(a: seq<string>, b: seq<string>)
    ensures VisibleAll(a + b) == VisibleAll(a) + VisibleAll(b)
  {
    if a == [] {
      assert a + b == b;
    } else {
      assert (a + b)[1..] == a[1..] + b;
      VisibleAllConcat(a[1..], b);
    }
  }

  lemma VisibleAllCons(s: string, rest: seq<string>)
    ensures VisibleAll([s] + rest) == Visible(s) + VisibleAll(rest)
  {
    assert ([s] + rest)[1..] == rest;
  }

  lemma {:induction false} BlankIsInvisible(s: string)
    ensures Blank(s) <==> Visible(s) == ""
  {
    if s != "" {
      BlankIsInvisible(s[1..]);
      assert Blank(s) <==> IsSpace(s[0]) && Blank(s[1..]) by {
        assert forall i | 0 < i < |s| :: s[i] == s[1..][i - 1];
        assert forall i | 0 <= i < |s[1..]| :: s[1..][i] == s[i + 1];
      }
    }
  }

  lemma {:induction false} TrimLeftSpec(s: string)
    ensures Visible(TrimLeft(s)) == Visible(s)
    ensures TrimLeft(s) == s[|s| - |TrimLeft(s)|..]
    ensures TrimLeft(s) != "" ==> !IsSpace(TrimLeft(s)[0])
  {
    if s != "" && IsSpace(s[0]) {
      TrimLeftSpec(s[1..]);
      var k := |s| - |TrimLeft(s)|;
      assert s[1..][k - 1..] == s[k..];
    }
  }

  lemma {:induction false} TrimRightSpec(s: string)
    ensures Visible(TrimRight(s)) == Visible(s)
    ensures TrimRight(s) != "" ==> !IsSpace(TrimRight(s)[|TrimRight(s)| - 1])
  {
    if s != "" && IsSpace(s[|s| - 1]) {
      var front := s[..|s| - 1];
      TrimRightSpec(front);
      assert s == front + [s[|s| - 1]];
      VisibleConcat(front, [s[|s| - 1]]);
    }
  }

  /** What `strip` guarantees: it drops only outer whitespace and leaves none. */
  lemma {:induction false} StripSpec(s: string)
    ensures Stripped(Strip(s))
    ensures Visible(Strip(s)) == Visible(s)
    ensures |Strip(s)| <= |s|
    ensures Strip(s) == "" <==> Blank(s)
    ensures Stripped(s) ==> Strip(s) == s
  {
    TrimLeftSpec(s);
    TrimRightSpec(TrimLeft(s));
    BlankIsInvisible(s);
    BlankIsInvisible(Strip(s));
  }

  lemma {:induction false} StripAllSpec(ss: seq<string>)
    ensures VisibleAll(StripAll(ss)) == VisibleAll(ss)
    ensures Tidy(StripAll(ss))
  {
    if ss != [] {
      StripSpec(ss[0]);
      StripAllSpec(ss[1..]);
      BlankIsInvisible(ss[0]);
      if Strip(ss[0]) == "" {
        assert StripAll(ss) == StripAll(ss[1..]);
      } else {
        assert StripAll(ss)[1..] == StripAll(ss[1..]);
      }
    }
  }

  lemma {:induction false} StripAllIdentity(ss: seq<string>)
    requires Tidy(ss)
    ensures StripAll(ss) == ss
  {
    if ss != [] {
      StripSpec(ss[0]);
      StripAllIdentity(ss[1..]);
    }
  }

  lemma {:induction false} JoinConcat(a: seq<string>, b: seq<string>)
    requires a != [] && b != []
    ensures Join(a + b) == Join(a) + " " + Join(b)
  {
    if |a| == 1 {
      assert (a + b)[1..] == b;
    } else {
      assert (a + b)[1..] == a[1..] + b;
      JoinConcat(a[1..], b);
      calc {
        Join(a + b);
        a[0] + " " + Join(a[1..] + b);
        a[0] + " " + (Join(a[1..]) + " " + Join(b));
        (a[0] + " " + Join(a[1..])) + " " + Join(b);
      }
    }
  }

  /** Joining is monotone in both directions, which is what makes greedy packing exact. */
  lemma JoinMonotone(a: seq<string>, b: seq<string>)
    ensures |Join(a)| <= |Join(a + b)| && |Join(b)| <= |Join(a + b)|
  {
    if a == [] {
      assert a + b == b;
    } else if b == [] {
      assert a + b == a;
    } else {
      JoinConcat(a, b);
    }
  }

  lemma {:induction false} JoinVisible(ss: seq<string>)
    ensures Visible(Join(ss)) == VisibleAll(ss)
  {
    if |ss| == 1 {
      assert VisibleAll(ss[1..]) == "";
    } else if ss != [] {
      var tail := Join(ss[1..]);
      calc {
        Visible(Join(ss));
        { assert Join(ss) == (ss[0] + " ") + tail; VisibleConcat(ss[0] + " ", tail); }
        Visible(ss[0] + " ") + Visible(tail);
        { VisibleConcat(ss[0], " "); assert Visible(" ") == ""; }
        Visible(ss[0]) + Visible(tail);
        { JoinVisible(ss[1..]); }
        VisibleAll(ss);
      }
    }
  }

  lemma {:induction false} JoinStripped(ss: seq<string>)
    requires Tidy(ss)
    ensures Stripped(Join(ss))
    ensures ss != [] ==> Join(ss) != "" && Join(ss)[0] == ss[0][0]
  {
    if |ss| > 1 {
      JoinStripped(ss[1..]);
      var tail := Join(ss[1..]);
      assert Join(ss)[|Join(ss)| - 1] == tail[|tail| - 1];
    }
  }
}
