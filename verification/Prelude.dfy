/** Vocabulary shared by every module. */
module Prelude {

  datatype Option<+T> = None | Some(value: T)

  /** White space as str.strip and the `\s` of a pattern see it. */
  predicate IsSpace(c: char) {
    var u := c as int;
    u == 32 || 9 <= u <= 13 || 28 <= u <= 31 || u == 0x85 || u == 0xA0 || u == 0x1680 ||
    0x2000 <= u <= 0x200A || u == 0x2028 || u == 0x2029 || u == 0x202F || u == 0x205F || u == 0x3000
  }

  /** str.rstrip. */
  function RightStrip(s: string): string {
    if s != "" && IsSpace(s[|s| - 1]) then RightStrip(s[..|s| - 1]) else s
  }

  lemma {:induction false} RightStripCuts(s: string)
    ensures var r := RightStrip(s);
            |r| <= |s| && r == s[..|r|] && (r == "" || !IsSpace(r[|r| - 1]))
  {
    if s != "" && IsSpace(s[|s| - 1]) {
      RightStripCuts(s[..|s| - 1]);
    }
  }
}
