/** The text operations of the standard library that the runtime uses. */
module Text {

  /** The Unicode White_Space property. */
  predicate IsWhitespace(c: char) {
    var n := c as int;
    || 0x09 <= n <= 0x0D || n == 0x20 || n == 0x85 || n == 0xA0 || n == 0x1680
    || 0x2000 <= n <= 0x200A || n == 0x2028 || n == 0x2029 || n == 0x202F || n == 0x205F || n == 0x3000
  }

  function TrimStart(s: string): string {
    if s != "" && IsWhitespace(s[0]) then TrimStart(s[1..]) else s
  }

  function TrimEnd(s: string): string {
    if s != "" && IsWhitespace(s[|s| - 1]) then TrimEnd(s[..|s| - 1]) else s
  }

  /** `str::trim`. */
  function Trim(s: string): string {
    TrimEnd(TrimStart(s))
  }

  lemma {:induction false} TrimStartIsEmpty(s: string)
    ensures TrimStart(s) == "" <==> forall i | 0 <= i < |s| :: IsWhitespace(s[i])
    ensures TrimStart(s) != "" ==> !IsWhitespace(TrimStart(s)[0])
  {
    if s == "" || !IsWhitespace(s[0]) {
    } else {
      TrimStartIsEmpty(s[1..]);
      assert forall i | 1 <= i < |s| :: s[i] == s[1..][i - 1];
      assert forall i | 0 <= i < |s| - 1 :: s[1..][i] == s[i + 1];
    }
  }

  lemma {:induction false} TrimEndKeepsFirst(s: string)
    requires s != "" && !IsWhitespace(s[0])
    ensures TrimEnd(s) != ""
  {
    if IsWhitespace(s[|s| - 1]) {
      TrimEndKeepsFirst(s[..|s| - 1]);
    }
  }

  /** Nothing is left of a string exactly if it is all whitespace. */
  lemma TrimIsEmptyExactly(s: string)
    ensures Trim(s) == "" <==> forall i | 0 <= i < |s| :: IsWhitespace(s[i])
  {
    TrimStartIsEmpty(s);
    if TrimStart(s) != "" {
      TrimEndKeepsFirst(TrimStart(s));
    }
  }

  /** The length of `str::len`: that of the UTF-8 encoding. */
  function Utf8Length(s: string): nat {
    if s == "" then 0
    else
      var n := s[0] as int;
      (if n < 0x80 then 1 else if n < 0x800 then 2 else if n < 0x1_0000 then 3 else 4) + Utf8Length(s[1..])
  }

  /** The length is that of the parts, one by one. */
  lemma {:induction false} Utf8LengthAdds(s: string, more: string)
    ensures Utf8Length(s + more) == Utf8Length(s) + Utf8Length(more)
  {
    if s == "" {
      assert s + more == more;
    } else {
      assert (s + more)[1..] == s[1..] + more;
      Utf8LengthAdds(s[1..], more);
    }
  }

  /** One byte up to U+007F, two up to U+07FF, three up to U+FFFF, four beyond. */
  lemma Utf8LengthExactly(c: char)
    ensures Utf8Length("") == 0
    ensures c <= '\U{7F}' ==> Utf8Length([c]) == 1
    ensures '\U{80}' <= c <= '\U{7FF}' ==> Utf8Length([c]) == 2
    ensures '\U{800}' <= c <= '\U{FFFF}' ==> Utf8Length([c]) == 3
    ensures '\U{10000}' <= c ==> Utf8Length([c]) == 4
  {
    assert [c][1..] == "";
  }

  /** The 25 characters that are white space. */
  lemma WhitespaceExactly(c: char)
    ensures IsWhitespace(c) <==>
              c in {'\U{9}', '\U{A}', '\U{B}', '\U{C}', '\U{D}', '\U{20}', '\U{85}', '\U{A0}', '\U{1680}',
                    '\U{2000}', '\U{2001}', '\U{2002}', '\U{2003}', '\U{2004}', '\U{2005}', '\U{2006}',
                    '\U{2007}', '\U{2008}', '\U{2009}', '\U{200A}', '\U{2028}', '\U{2029}', '\U{202F}',
                    '\U{205F}', '\U{3000}'}
  {
  }
}
