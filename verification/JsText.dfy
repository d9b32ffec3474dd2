/**
 The JavaScript string operations that the services use.
 */
module JsText {

  /** The characters of \s in a regular expression, which are also those that trim() removes. */
  predicate IsSpace(c: char) {
    || '\t' <= c <= '\r'
    || c in {' ', '\U{00A0}', '\U{1680}', '\U{2028}', '\U{2029}', '\U{202F}', '\U{205F}', '\U{3000}', '\U{FEFF}'}
    || '\U{2000}' <= c <= '\U{200A}'
  }

  /** The white space of JavaScript, by code point. */
  lemma SpacesAre(c: char)
    ensures IsSpace(c) <==>
            c as int in {9, 10, 11, 12, 13, 32, 160, 5760, 8192, 8193, 8194, 8195, 8196, 8197, 8198, 8199, 8200, 8201,
                         8202, 8232, 8233, 8239, 8287, 12288, 65279}
  {
  }

  /**
   toLowerCase on one character, as far as ASCII results go: A-Z and the Kelvin sign.
   Other characters never lower to text that could complete an ASCII fragment.
   */
  function ToLower(c: char): char {
    if 'A' <= c <= 'Z' then (c as int - 'A' as int + 'a' as int) as char
    else if c == '\U{212A}' then 'k'
    else c
  }

  predicate OccursAt(s: string, fragment: string, i: nat) {
    i + |fragment| <= |s| && s[i..i + |fragment|] == fragment
  }

  predicate Includes(s: string, fragment: string) {
    exists i :: 0 <= i <= |s| && OccursAt(s, fragment, i)
  }

  lemma IncludesInContext(pre: string, s: string, post: string, fragment: string)
    requires Includes(s, fragment)
    ensures Includes(pre + s + post, fragment)
  {
    var i :| 0 <= i <= |s| && OccursAt(s, fragment, i);
    var j := |pre| + i;
    assert (pre + s + post)[j..j + |fragment|] == s[i..i + |fragment|];
    assert OccursAt(pre + s + post, fragment, j);
  }
}
