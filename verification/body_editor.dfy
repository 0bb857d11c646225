/**
 * The request body editor's Tab key: the selection is replaced by a tab character
 * and the caret is put just after it.
 */
module BodyEditor {

  /** `Math.min(Math.max(i, 0), n)`: how `substring` clamps an index. */
  function Clamp(i: int, n: nat): (r: nat)
    ensures r <= n
    ensures 0 <= i <= n ==> r == i
  {
    if i < 0 then 0 else if i > n then n else i
  }

  /** `s.substring(a, b)`: both ends clamped, and swapped when the first is larger. */
  function Substring(s: string, a: int, b: int): (r: string)
    ensures 0 <= a <= b <= |s| ==> r == s[a..b]
    ensures |r| <= |s|
  {
    var x, y := Clamp(a, |s|), Clamp(b, |s|);
    if x <= y then s[x..y] else s[y..x]
  }

  /** `body.substring(0, start) + '\t' + body.substring(end)`. */
  function TabText(body: string, start: int, end: int): string {
    Substring(body, 0, start) + "\t" + Substring(body, end, |body|)
  }

  /**
   * On a selection of the text, the tab replaces exactly the selected characters: the
   * text before `start` and from `end` on is kept, and the length changes accordingly.
   */
  lemma TabReplacesSelection(body: string, start: int, end: int)
    requires 0 <= start <= end <= |body|
    ensures TabText(body, start, end) == body[..start] + "\t" + body[end..]
    ensures |TabText(body, start, end)| == |body| - (end - start) + 1
    ensures TabText(body, start, end)[..start] == body[..start]
    ensures TabText(body, start, end)[start] == '\t'
    ensures TabText(body, start, end)[start + 1..] == body[end..]
  {
    var t := TabText(body, start, end);
    assert t == body[..start] + "\t" + body[end..];
    assert t[..start] == body[..start];
    assert t[start + 1..] == body[end..];
  }

  /** With the caret at one place and nothing selected, the tab is inserted there. */
  lemma TabAtCaret(body: string, caret: int)
    requires 0 <= caret <= |body|
    ensures TabText(body, caret, caret) == body[..caret] + "\t" + body[caret..]
    ensures |TabText(body, caret, caret)| == |body| + 1
  {
    TabReplacesSelection(body, caret, caret);
  }

  /**
   * The editor's body text, the caret the Tab handler last set (start and end of the
   * selection), and the texts it has passed to `onChange`, oldest first.
   */
  class BodyEditor {
    var body: string
    var selectionStart: int
    var selectionEnd: int
    var changes: seq<string>

    constructor ()
      ensures body == [] && changes == [] && selectionStart == 0 && selectionEnd == 0
    {
      body := [];
      selectionStart := 0;
      selectionEnd := 0;
      changes := [];
    }

    /** Typing: the new text is stored and passed on. */
    method Input(value: string)
      modifies this
      ensures body == value && changes == old(changes) + [value]
      ensures selectionStart == old(selectionStart) && selectionEnd == old(selectionEnd)
    {
      body := value;
      changes := changes + [value];
    }

    /**
     * A key press, with the selection the text area reports at that moment. Only Tab
     * does anything: the new text is stored and passed on, and the caret (set by the
     * deferred callback) collapses to `start + 1`.
     */
    method KeyDown(key: string, start: int, end: int)
      modifies this
      ensures key != "Tab" ==>
        && body == old(body) && changes == old(changes)
        && selectionStart == old(selectionStart) && selectionEnd == old(selectionEnd)
      ensures key == "Tab" ==>
        && body == TabText(old(body), start, end) && changes == old(changes) + [body]
        && selectionStart == start + 1 && selectionEnd == start + 1
    {
      if key == "Tab" {
        var newValue := Substring(body, 0, start) + "\t" + Substring(body, end, |body|);
        body := newValue;
        changes := changes + [newValue];
        selectionEnd := start + 1;
        selectionStart := selectionEnd;
      }
    }
  }
}
