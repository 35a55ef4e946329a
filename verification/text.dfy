/** The Arduino `String` operations the sensor's command handler relies on,
    and the "name value" layout shared by the emitted reports and the
    incoming interval command. */
module Text {

  /** `String::indexOf(char)`: the position of the first occurrence of `c`
      in `s`, or -1 when `c` does not occur. */
  function IndexOf(s: string, c: char): (i: int)
    ensures -1 <= i < |s|
    ensures i == -1 <==> c !in s
    ensures 0 <= i ==> s[i] == c && c !in s[..i]
  {
    if |s| == 0 then -1
    else if s[0] == c then 0
    else
      var j := IndexOf(s[1..], c);
      if j == -1 then -1
      else
        assert s[..j + 1] == [s[0]] + s[1..][..j];
        j + 1
  }

  /** `String::substring(from)`: the characters from position `from` to the
      end, or the empty string when `from` is past the end. */
  function SubstringFrom(s: string, from: nat): (t: string)
    ensures from <= |s| ==> s == s[..from] + t
    ensures from >= |s| ==> t == []
  {
    if from >= |s| then [] else s[from..]
  }

  /** What follows the first space of `s`; the whole of `s` when it holds no
      space, because `indexOf` then yields -1 and the substring starts at 0. */
  function AfterFirstSpace(s: string): (t: string)
    ensures ' ' !in s ==> t == s
    ensures ' ' in s ==>
              && |t| < |s|
              && s == s[..|s| - |t| - 1] + " " + t
              && ' ' !in s[..|s| - |t| - 1]
  {
    var i := IndexOf(s, ' ');
    var t := SubstringFrom(s, i + 1);
    if i >= 0 then
      assert s == s[..i] + " " + t by {
        assert s == s[..i + 1] + t;
        assert s[..i + 1] == s[..i] + [s[i]];
      }
      t
    else t
  }

  /** The "name value" layout: a name, one space, then a text. The sensor
      emits each report in this layout and reads its interval command from
      it. */
  function SmartString(name: string, text: string): (line: string)
    ensures |line| == |name| + 1 + |text|
    ensures line[..|name|] == name && line[|name|] == ' ' && line[|name| + 1..] == text
  {
    name + " " + text
  }

  /** A line whose name holds no space splits back, at its first space, into
      exactly its text. */
  lemma SmartStringSplits(name: string, text: string)
    requires ' ' !in name
    ensures AfterFirstSpace(SmartString(name, text)) == text
  {
    var line := SmartString(name, text);
    assert line[..|name|] == name;
    assert ' ' in line by { assert line[|name|] == ' '; }
    // The first space of the line is the one after the name.
    assert line[|name| + 1..] == text;
  }
}
