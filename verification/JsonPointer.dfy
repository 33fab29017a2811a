/** Attribute keys inside JSON-patch paths: the escaping of section 3 and the decoding of section 4 of RFC 6901. */
module JsonPointer {
  import opened Common

  const PREFIX := "/remote_attributes/"

  /** strings.ReplaceAll for a one-character pattern. */
  function ReplaceChar(s: string, c: char, with: string): string {
    if s == [] then []
    else (if s[0] == c then with else [s[0]]) + ReplaceChar(s[1..], c, with)
  }

  /** strings.ReplaceAll for a two-character pattern: leftmost, without overlaps. */
  function ReplacePair(s: string, a: char, b: char, with: char): string {
    if |s| < 2 then s
    else if s[0] == a && s[1] == b then [with] + ReplacePair(s[2..], a, b, with)
    else [s[0]] + ReplacePair(s[1..], a, b, with)
  }

  function Escape(key: string): string {
    ReplaceChar(ReplaceChar(key, '~', "~0"), '/', "~1")
  }

  function Unescape(token: string): string {
    ReplacePair(ReplacePair(token, '~', '1', '/'), '~', '0', '~')
  }

  function RemoteAttrPath(key: string): string {
    PREFIX + Escape(key)
  }

  /** The attribute a path addresses: one more reference token below the prefix, decoded. */
  function KeyOf(path: string): Option<string> {
    if PREFIX <= path && '/' !in path[|PREFIX|..] then Some(Unescape(path[|PREFIX|..])) else None
  }

  lemma {:induction false} SlashPassSplit(key: string)
    requires key != []
    ensures Escape(key) == (if key[0] == '~' then "~0" else if key[0] == '/' then "~1" else [key[0]]) + Escape(key[1..])
  {
    var rest := ReplaceChar(key[1..], '~', "~0");
    var s := ReplaceChar(key, '~', "~0");
    if key[0] == '~' {
      assert s == "~0" + rest;
      assert s[1..] == "0" + rest && s[1..][1..] == rest;
      assert ReplaceChar(s, '/', "~1") == ['~'] + ReplaceChar(s[1..], '/', "~1");
      assert ReplaceChar(s[1..], '/', "~1") == ['0'] + ReplaceChar(rest, '/', "~1");
    } else {
      assert s == [key[0]] + rest && s[1..] == rest;
    }
  }

  lemma {:induction false} EscapeHasNoSlash(key: string)
    ensures '/' !in Escape(key)
  {
    if key != [] {
      SlashPassSplit(key);
      EscapeHasNoSlash(key[1..]);
    }
  }

  /** The first decoding pass undoes the second escaping pass. */
  lemma {:induction false} FirstPassDecodes(key: string)
    ensures ReplacePair(Escape(key), '~', '1', '/') == ReplaceChar(key, '~', "~0")
  {
    if key != [] {
      SlashPassSplit(key);
      FirstPassDecodes(key[1..]);
      var e, r := Escape(key), Escape(key[1..]);
      if key[0] == '~' {
        assert e[1..] == ['0'] + r && e[1..][1..] == r;
        assert e == ['~', '0'] + r;
        OrdinaryHead(e[1..], '1', '/');
        assert ReplacePair(e, '~', '1', '/') == ['~'] + ReplacePair(e[1..], '~', '1', '/');
      } else if key[0] == '/' {
        assert e == ['~', '1'] + r && e[2..] == r;
      } else {
        assert e == [key[0]] + r && e[1..] == r;
        OrdinaryHead(e, '1', '/');
      }
    }
  }

  /** A character other than the tilde passes through. */
  lemma OrdinaryHead(s: string, b: char, with: char)
    requires s != [] && s[0] != '~'
    ensures ReplacePair(s, '~', b, with) == [s[0]] + ReplacePair(s[1..], '~', b, with)
  {}

  lemma {:induction false} SecondPassDecodes(key: string)
    ensures ReplacePair(ReplaceChar(key, '~', "~0"), '~', '0', '~') == key
  {
    if key != [] {
      SecondPassDecodes(key[1..]);
      var s, r := ReplaceChar(key, '~', "~0"), ReplaceChar(key[1..], '~', "~0");
      if key[0] == '~' {
        assert s == ['~', '0'] + r && s[2..] == r;
      } else {
        assert s == [key[0]] + r && s[1..] == r;
        OrdinaryHead(s, '0', '~');
      }
      assert key == [key[0]] + key[1..];
    }
  }

  /** Every key survives the trip through a path. */
  lemma PathDecodesToKey(key: string)
    ensures KeyOf(RemoteAttrPath(key)) == Some(key)
  {
    EscapeHasNoSlash(key);
    FirstPassDecodes(key);
    SecondPassDecodes(key);
    assert RemoteAttrPath(key)[|PREFIX|..] == Escape(key);
  }

  lemma PathsInjective(a: string, b: string)
    requires RemoteAttrPath(a) == RemoteAttrPath(b)
    ensures a == b
  {
    PathDecodesToKey(a);
    PathDecodesToKey(b);
  }

  /** What the Collector finaliser builds: the key as it is. */
  function FinalizerPath(key: string): string {
    PREFIX + key
  }

  lemma {:induction false} EscapeFixpoint(key: string)
    ensures |Escape(key)| >= |key|
    ensures Escape(key) == key <==> '~' !in key && '/' !in key
  {
    if key != [] {
      SlashPassSplit(key);
      EscapeFixpoint(key[1..]);
      assert key == [key[0]] + key[1..];
      if key[0] != '~' && key[0] != '/' {
        assert Escape(key)[1..] == Escape(key[1..]);
      }
    }
  }

  /** The finaliser's unescaped path is the one Diff writes exactly for keys without a tilde or slash. */
  lemma FinalizerPathExactly(key: string)
    ensures FinalizerPath(key) == RemoteAttrPath(key) <==> '~' !in key && '/' !in key
  {
    EscapeFixpoint(key);
    assert FinalizerPath(key)[|PREFIX|..] == key && RemoteAttrPath(key)[|PREFIX|..] == Escape(key);
  }

  /** A key with an escape sequence addresses another key. */
  lemma FinalizerHitsAnotherKey()
    ensures KeyOf(FinalizerPath("a~1b")) == Some("a/b")
  {
    assert FinalizerPath("a~1b")[|PREFIX|..] == "a~1b";
    assert ReplacePair("a~1b", '~', '1', '/') == "a/b" by {
      assert "a~1b"[1..] == "~1b" && "~1b"[2..] == "b";
    }
    assert ReplacePair("a/b", '~', '0', '~') == "a/b" by {
      assert "a/b"[1..] == "/b" && "/b"[1..] == "b";
    }
  }

  lemma {:induction false} EscapeConcat(a: string, b: string)
    ensures Escape(a + b) == Escape(a) + Escape(b)
  {
    if a == [] {
      assert a + b == b;
    } else {
      SlashPassSplit(a + b);
      SlashPassSplit(a);
      assert (a + b)[1..] == a[1..] + b;
      EscapeConcat(a[1..], b);
    }
  }

  /** A path is the prefix and the key, character by character: a tilde is "~0", a slash "~1", and any other
      character itself. */
  lemma PathSpelledOut(a: string, c: char, b: string)
    ensures RemoteAttrPath("") == "/remote_attributes/" == FinalizerPath("")
    ensures RemoteAttrPath(a + [c] + b) ==
            RemoteAttrPath(a) + (if c == '~' then "~0" else if c == '/' then "~1" else [c]) + Escape(b)
  {
    EscapeConcat(a + [c], b);
    EscapeConcat(a, [c]);
    SlashPassSplit([c]);
  }
}
