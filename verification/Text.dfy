/** String operations of the Arduino framework that the portal relies on. */
module ArduinoText {

  predicate IsSpace(c: char) {
    c == ' ' || ('\t' <= c <= '\r')
  }

  function TrimLeft(s: string): string {
    if s != "" && IsSpace(s[0]) then TrimLeft(s[1..]) else s
  }

  function TrimRight(s: string): string {
    if s != "" && IsSpace(s[|s| - 1]) then TrimRight(s[..|s| - 1]) else s
  }

  function Trim(s: string): string {
    TrimRight(TrimLeft(s))
  }

  predicate White(c: char) {
    c as int == 32 || 9 <= c as int <= 13
  }

  predicate Spaces(s: string) {
    forall c | c in s :: White(c)
  }

  // Neither end is white space.
  predicate Tight(s: string) {
    s != "" ==> !White(s[0]) && !White(s[|s| - 1])
  }

  /** Trimming takes the white space off both ends, and nothing else. */
  lemma TrimExact(left: string, core: string, right: string)
    requires Spaces(left) && Tight(core) && Spaces(right)
    ensures Trim(left + core + right) == core
  {
    if core == "" {
      assert left + core + right == left + right;
      AllSpaces(left + right);
    } else {
      SkipLeft(left, core + right);
      assert left + core + right == left + (core + right);
      SkipRight(core, right);
    }
  }

  lemma {:induction false} AllSpaces(s: string)
    requires Spaces(s)
    ensures TrimLeft(s) == ""
  {
    if s != "" {
      assert White(s[0]);
      AllSpaces(s[1..]);
    }
  }

  lemma {:induction false} SkipLeft(left: string, s: string)
    requires Spaces(left) && s != "" && !IsSpace(s[0])
    ensures TrimLeft(left + s) == s
  {
    if left == "" {
      assert left + s == s;
    } else {
      assert White(left[0]);
      assert (left + s)[1..] == left[1..] + s;
      SkipLeft(left[1..], s);
    }
  }

  lemma {:induction false} SkipRight(s: string, right: string)
    requires Spaces(right) && s != "" && !IsSpace(s[|s| - 1])
    ensures TrimRight(s + right) == s
    decreases |right|
  {
    if right == "" {
      assert s + right == s;
    } else {
      var all := s + right;
      assert White(right[|right| - 1]);
      assert all[..|all| - 1] == s + right[..|right| - 1] && all[|all| - 1] == right[|right| - 1];
      SkipRight(s, right[..|right| - 1]);
    }
  }
}
