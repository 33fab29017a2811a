/** Names of discovered Collectors: arbitrary Fleet ids turned into DNS-1123 labels. */
module DiscoveryNames {
  const MAX_LABEL := 63
  const MAX_BASE := 53
  const HASH_SUFFIX := 5

  /** strings.ToLower and SHA-256. */
  datatype Naming = Naming(lower: string -> string, sha256: string -> seq<int>)
  {
    ghost predicate Valid() {
      forall id :: |sha256(id)| == 32 && forall b | b in sha256(id) :: 0 <= b < 256
    }

    /** Lowering leaves strings of lower-case letters, digits and dashes alone. */
    ghost predicate KeepsLower() {
      forall s | AllLabelChars(s) :: lower(s) == s
    }
  }

  predicate IsAlnum(c: char) {
    'a' <= c <= 'z' || '0' <= c <= '9'
  }

  predicate IsLabelChar(c: char) {
    IsAlnum(c) || c == '-'
  }

  predicate AllLabelChars(s: string) {
    forall i | 0 <= i < |s| :: IsLabelChar(s[i])
  }

  // ----- Sanitizing -----

  /** Other characters become dashes, one for a run of them. */
  function Collapse(s: string, prevDash: bool): string {
    if s == [] then []
    else if IsAlnum(s[0]) then [s[0]] + Collapse(s[1..], false)
    else if prevDash then Collapse(s[1..], true)
    else ['-'] + Collapse(s[1..], true)
  }

  function TrimLeft(s: string): string {
    if s != [] && s[0] == '-' then TrimLeft(s[1..]) else s
  }

  function TrimRight(s: string): string {
    if s != [] && s[|s| - 1] == '-' then TrimRight(s[..|s| - 1]) else s
  }

  function Trim(s: string): string {
    TrimRight(TrimLeft(s))
  }

  function Sanitized(n: Naming, id: string): string {
    var out := Trim(Collapse(n.lower(id), false));
    if |out| > MAX_BASE then TrimRight(out[..MAX_BASE]) else out
  }

  predicate Lossy(n: Naming, id: string) {
    Sanitized(n, id) != id || Sanitized(n, id) == ""
  }

  method SanitizedName(n: Naming, id: string) returns (name: string, lossy: bool)
    ensures name == Sanitized(n, id) && lossy == Lossy(n, id)
  {
    var lower := n.lower(id);
    var b := "";
    var prevDash := false;
    for i := 0 to |lower|
      invariant b + Collapse(lower[i..], prevDash) == Collapse(lower, false)
    {
      assert lower[i..][1..] == lower[i + 1..];
      if IsAlnum(lower[i]) {
        b := b + [lower[i]];
        prevDash := false;
      } else if !prevDash {
        b := b + ['-'];
        prevDash := true;
      }
    }
    assert b == Collapse(lower, false) by {
      assert lower[|lower|..] == [];
    }
    var out := Trim(b);
    if |out| > MAX_BASE {
      out := TrimRight(out[..MAX_BASE]);
    }
    name, lossy := out, out != id || out == "";
  }

  // ----- Hashing -----

  function HexDigit(d: int): (c: char)
    requires 0 <= d < 16
    ensures IsAlnum(c)
  {
    "0123456789abcdef"[d]
  }

  function Hex(bytes: seq<int>): (s: string)
    requires forall b | b in bytes :: 0 <= b < 256
    ensures |s| == 2 * |bytes| && forall i | 0 <= i < |s| :: IsAlnum(s[i])
  {
    if bytes == [] then []
    else
      assert bytes[0] in bytes && forall b | b in bytes[1..] :: b in bytes;
      [HexDigit(bytes[0] / 16), HexDigit(bytes[0] % 16)] + Hex(bytes[1..])
  }

  function Suffix(n: Naming, id: string): (s: string)
    requires n.Valid()
    ensures |s| == HASH_SUFFIX && forall i | 0 <= i < |s| :: IsAlnum(s[i])
  {
    Hex(n.sha256(id))[..HASH_SUFFIX]
  }

  function Base(n: Naming, id: string): string {
    if Sanitized(n, id) == "" then "c" else Sanitized(n, id)
  }

  function HashedName(n: Naming, id: string): string
    requires n.Valid()
  {
    Base(n, id) + "-" + Suffix(n, id)
  }

  function ChooseName(n: Naming, id: string): string
    requires n.Valid()
  {
    if Lossy(n, id) then HashedName(n, id) else Sanitized(n, id)
  }

  // ----- Validity -----

  predicate ValidLabel(name: string) {
    && 0 < |name| <= MAX_LABEL
    && AllLabelChars(name)
    && name[0] != '-' && name[|name| - 1] != '-'
  }

  method IsValidDNS1123(name: string) returns (valid: bool)
    ensures valid <==> ValidLabel(name)
    ensures valid <==>
              && 0 < |name| <= 63 && name[0] != '-' && name[|name| - 1] != '-'
              && forall i | 0 <= i < |name| :: 'a' <= name[i] <= 'z' || '0' <= name[i] <= '9' || name[i] == '-'
  {
    if name == "" || |name| > MAX_LABEL {
      return false;
    }
    for i := 0 to |name|
      invariant AllLabelChars(name[..i])
      invariant i > 0 ==> name[0] != '-'
      invariant i == |name| ==> name[|name| - 1] != '-'
    {
      if IsAlnum(name[i]) {
      } else if name[i] == '-' {
        if i == 0 || i == |name| - 1 {
          return false;
        }
      } else {
        return false;
      }
      assert name[..i + 1] == name[..i] + [name[i]];
    }
    assert name[..|name|] == name;
    valid := true;
  }

  // ----- What sanitizing guarantees -----

  predicate NoDoubleDash(s: string) {
    forall i | 0 <= i < |s| - 1 :: s[i] == '-' ==> s[i + 1] != '-'
  }

  /** Label characters, single dashes only inside. */
  predicate Clean(s: string) {
    && AllLabelChars(s) && NoDoubleDash(s)
    && (s != [] ==> s[0] != '-' && s[|s| - 1] != '-')
  }

  lemma {:induction false} CollapseShape(s: string, prevDash: bool)
    ensures AllLabelChars(Collapse(s, prevDash)) && NoDoubleDash(Collapse(s, prevDash))
    ensures prevDash && Collapse(s, prevDash) != [] ==> Collapse(s, prevDash)[0] != '-'
  {
    if s != [] {
      CollapseShape(s[1..], !IsAlnum(s[0]));
    }
  }

  lemma {:induction false} TrimLeftShape(s: string)
    requires AllLabelChars(s) && NoDoubleDash(s)
    ensures AllLabelChars(TrimLeft(s)) && NoDoubleDash(TrimLeft(s)) && (TrimLeft(s) != [] ==> TrimLeft(s)[0] != '-')
  {
    if s != [] && s[0] == '-' {
      TrimLeftShape(s[1..]);
    }
  }

  lemma {:induction false} TrimRightShape(s: string)
    requires AllLabelChars(s) && NoDoubleDash(s) && (s != [] ==> s[0] != '-')
    ensures Clean(TrimRight(s)) && |TrimRight(s)| <= |s|
    ensures s != [] ==> TrimRight(s) != []
  {
    if s != [] && s[|s| - 1] == '-' {
      TrimRightShape(s[..|s| - 1]);
    }
  }

  lemma SanitizedIsClean(n: Naming, id: string)
    ensures Clean(Sanitized(n, id)) && |Sanitized(n, id)| <= 53
  {
    var c := Collapse(n.lower(id), false);
    CollapseShape(n.lower(id), false);
    TrimLeftShape(c);
    TrimRightShape(TrimLeft(c));
    if |Trim(c)| > MAX_BASE {
      TrimRightShape(Trim(c)[..MAX_BASE]);
    }
  }

  /** Whatever the id, the chosen name is a valid label of at most 59 characters. */
  lemma ChosenNameIsValid(n: Naming, id: string)
    requires n.Valid()
    ensures ValidLabel(ChooseName(n, id)) && |ChooseName(n, id)| <= 59
  {
    SanitizedIsClean(n, id);
    if Lossy(n, id) {
      var base, suffix := Base(n, id), Suffix(n, id);
      var name := base + "-" + suffix;
      assert name[0] == base[0];
      assert name[|name| - 1] == suffix[HASH_SUFFIX - 1];
      forall i | 0 <= i < |name| ensures IsLabelChar(name[i]) {
        if i > |base| {
          assert name[i] == suffix[i - |base| - 1];
        }
      }
    }
  }

  // ----- Which ids pass unchanged, and which names collide -----

  lemma {:induction false} CollapseFixes(s: string, prevDash: bool)
    requires AllLabelChars(s) && NoDoubleDash(s) && (prevDash && s != [] ==> s[0] != '-')
    ensures Collapse(s, prevDash) == s
  {
    if s != [] {
      CollapseFixes(s[1..], !IsAlnum(s[0]));
      assert s == [s[0]] + s[1..];
    }
  }

  /** An id is kept as it is exactly when it is a clean label of at most 53 characters. */
  lemma LosslessExactly(n: Naming, id: string)
    requires n.KeepsLower()
    ensures !Lossy(n, id) <==> id != "" && Clean(id) && |id| <= 53
  {
    SanitizedIsClean(n, id);
    if id != "" && Clean(id) && |id| <= MAX_BASE {
      CollapseFixes(id, false);
    }
  }

  /** The chooser is injective on lossless ids; beyond them two ids share a name exactly when both are
      hashed onto the same base and digits, or one spells out the other's hashed name. */
  lemma NamesCollideExactly(n: Naming, a: string, b: string)
    requires n.Valid() && a != b
    ensures ChooseName(n, a) == ChooseName(n, b) <==>
            || (Lossy(n, a) && Lossy(n, b) && Base(n, a) == Base(n, b) && Suffix(n, a) == Suffix(n, b))
            || (!Lossy(n, a) && Lossy(n, b) && a == HashedName(n, b))
            || (Lossy(n, a) && !Lossy(n, b) && b == HashedName(n, a))
  {
    if Lossy(n, a) && Lossy(n, b) && HashedName(n, a) == HashedName(n, b) {
      var x, y := HashedName(n, a), HashedName(n, b);
      assert |Base(n, a)| == |Base(n, b)|;
      assert x[..|Base(n, a)|] == Base(n, a) && y[..|Base(n, b)|] == Base(n, b);
      assert x[|Base(n, a)| + 1..] == Suffix(n, a) && y[|Base(n, b)| + 1..] == Suffix(n, b);
    }
  }

  // ----- What a name is made of -----

  predicate InWord(c: char) {
    'a' <= c <= 'z' || '0' <= c <= '9'
  }

  /** The maximal runs of letters and digits, in order. */
  function Words(s: string): (words: seq<string>)
    ensures s != [] && InWord(s[0]) ==> words != []
  {
    if s == [] then []
    else if !InWord(s[0]) then Words(s[1..])
    else if |s| == 1 || !InWord(s[1]) then [[s[0]]] + Words(s[1..])
    else [[s[0]] + Words(s[1..])[0]] + Words(s[1..])[1..]
  }

  function Joined(words: seq<string>): string {
    if words == [] then ""
    else if |words| == 1 then words[0]
    else words[0] + "-" + Joined(words[1..])
  }

  lemma TrimRightCons(c: char, s: string)
    ensures TrimRight([c] + s) ==
            if TrimRight(s) != [] then [c] + TrimRight(s) else if c == '-' then [] else [c]
  {
    if s == [] {
      assert [c] + s == [c] && [c][..0] == [];
    } else if s[|s| - 1] == '-' {
      assert ([c] + s)[..|s|] == [c] + s[..|s| - 1];
      TrimRightCons(c, s[..|s| - 1]);
    }
  }

  lemma JoinedCons(c: char, words: seq<string>)
    requires words != []
    ensures Joined([[c] + words[0]] + words[1..]) == [c] + Joined(words)
    ensures Joined([[c]] + words) == [c] + "-" + Joined(words)
  {
    assert ([[c] + words[0]] + words[1..])[1..] == words[1..];
    assert ([[c]] + words)[1..] == words;
  }

  /** Collapsing, after a dash and without one, up to trailing dashes. */
  lemma {:induction false} CollapseJoins(s: string)
    ensures TrimRight(Collapse(s, true)) == Joined(Words(s))
    ensures s != [] && !InWord(s[0]) ==>
              TrimRight(Collapse(s, false)) == if Words(s) == [] then [] else ['-'] + Joined(Words(s))
    ensures s == [] || InWord(s[0]) ==> TrimRight(Collapse(s, false)) == Joined(Words(s))
  {
    if s != [] {
      CollapseJoins(s[1..]);
      WordsNonEmpty(s[1..]);
      JoinedIsEmpty(Words(s[1..]));
      if InWord(s[0]) {
        TrimRightCons(s[0], Collapse(s[1..], false));
        if Words(s[1..]) != [] {
          JoinedCons(s[0], Words(s[1..]));
        }
      } else {
        TrimRightCons('-', Collapse(s[1..], true));
      }
    }
  }

  lemma {:induction false} WordsNonEmpty(s: string)
    ensures forall w | w in Words(s) :: w != []
  {
    if s != [] {
      WordsNonEmpty(s[1..]);
      var words := Words(s[1..]);
      assert forall w | w in Words(s) :: w in words || w == [s[0]] || (InWord(s[0]) && w == Words(s)[0]);
    }
  }

  lemma JoinedIsEmpty(words: seq<string>)
    requires forall w | w in words :: w != []
    ensures Joined(words) == [] <==> words == []
  {
    assert words != [] ==> words[0] in words;
  }

  lemma TrimLeftCollapse(s: string)
    ensures TrimLeft(Collapse(s, false)) == Collapse(s, true)
  {
    if s != [] && !InWord(s[0]) {
      CollapseShape(s[1..], true);
      assert Collapse(s, false)[1..] == Collapse(s[1..], true);
    }
  }

  /** The sanitized name is the id's runs of lower-case letters and digits joined by single dashes, cut after 53
      characters and then freed of a trailing dash. */
  lemma SanitizedJoinsWords(n: Naming, id: string)
    ensures var whole := Joined(Words(n.lower(id)));
            Sanitized(n, id) == if |whole| <= 53 then whole
                                else if whole[52] == '-' then whole[..52] else whole[..53]
  {
    var s := n.lower(id);
    TrimLeftCollapse(s);
    CollapseJoins(s);
    CollapseShape(s, true);
    var whole := Joined(Words(s));
    if |whole| > 53 {
      CutOnce(s);
    }
  }

  lemma CutOnce(s: string)
    requires |TrimRight(Collapse(s, true))| > 53
    ensures var whole := TrimRight(Collapse(s, true));
            TrimRight(whole[..53]) == if whole[52] == '-' then whole[..52] else whole[..53]
  {
    CollapseShape(s, true);
    TrimRightShape(Collapse(s, true));
    var whole := TrimRight(Collapse(s, true));
    assert whole[..53][..52] == whole[..52] && whole[..53][52] == whole[52] && whole[..52][51] == whole[51];
  }

  /** The first five hexadecimal digits of three bytes. */
  function FiveDigits(a: int, b: int, c: int): string
    requires 0 <= a < 256 && 0 <= b < 256 && 0 <= c < 256
  {
    var hex := "0123456789abcdef";
    [hex[a / 16], hex[a % 16], hex[b / 16], hex[b % 16], hex[c / 16]]
  }

  lemma HexStarts(a: int, b: int, c: int, rest: seq<int>)
    requires 0 <= a < 256 && 0 <= b < 256 && 0 <= c < 256 && forall x | x in rest :: 0 <= x < 256
    ensures Hex([a, b, c] + rest)[..5] == FiveDigits(a, b, c)
  {
    var h, t, u := [a, b, c] + rest, [b, c] + rest, [c] + rest;
    assert h[1..] == t && t[1..] == u && u[1..] == rest;
    assert Hex(h) == [HexDigit(a / 16), HexDigit(a % 16)] + Hex(t);
    assert Hex(t) == [HexDigit(b / 16), HexDigit(b % 16)] + Hex(u);
    assert Hex(u) == [HexDigit(c / 16), HexDigit(c % 16)] + Hex(rest);
  }

  /** A lossless id is its own name; any other gets the sanitized form, or "c" if that is empty, a dash and the
      first five hexadecimal digits of its hash. */
  lemma ChosenNameExactly(n: Naming, id: string, a: int, b: int, c: int, rest: seq<int>)
    requires n.Valid() && n.sha256(id) == [a, b, c] + rest && 0 <= a < 256 && 0 <= b < 256 && 0 <= c < 256
    ensures var s := Sanitized(n, id);
            ChooseName(n, id) ==
            if s == id && id != "" then id else (if s == "" then "c" else s) + "-" + FiveDigits(a, b, c)
  {
    assert forall x | x in rest :: x in n.sha256(id);
    HexStarts(a, b, c, rest);
  }
}
