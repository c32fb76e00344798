/**
 * The part of the host's text editor that the formatter touches: the buffer
 * text, one selected range, the cursor, the file path and the modified flag.
 */
module Editor {
  import opened Wrappers

  /** A screen position. */
  datatype Point = Point(row: nat, column: nat)

  class TextEditor {
    var path: Option<string>
    var modified: bool
    var text: string
    /** The selected buffer range is `text[selStart..selEnd]`. */
    var selStart: nat
    var selEnd: nat
    var cursor: Point

    ghost predicate Valid()
      reads this
    {
      selStart <= selEnd <= |text|
    }

    constructor (path: Option<string>, text: string, selStart: nat, selEnd: nat, cursor: Point)
      requires selStart <= selEnd <= |text|
      ensures Valid()
      ensures this.path == path && !modified && this.text == text
      ensures this.selStart == selStart && this.selEnd == selEnd && this.cursor == cursor
    {
      this.path := path;
      this.modified := false;
      this.text := text;
      this.selStart := selStart;
      this.selEnd := selEnd;
      this.cursor := cursor;
    }

    /** `getSelectedText()`. */
    function SelectedText(): string
      reads this
      requires Valid()
    {
      text[selStart..selEnd]
    }

    /**
     * `setText(t)`: the whole buffer becomes `t`. Where the host leaves the
     * cursor and the selection is not promised.
     */
    method SetText(t: string)
      requires Valid()
      modifies this
      ensures Valid()
      ensures text == t && path == old(path)
      ensures modified == (old(modified) || t != old(text))
    {
      modified := modified || t != text;
      text := t;
      selStart, selEnd := |t|, |t|;
      cursor := Point(0, 0);
    }

    /**
     * `setTextInBufferRange(range, t)`: `text[lo..hi]` becomes `t`, the rest
     * of the buffer is kept. Where the host leaves the cursor is not promised.
     */
    method SetTextInBufferRange(lo: nat, hi: nat, t: string)
      requires Valid() && lo <= hi <= |text|
      modifies this
      ensures Valid()
      ensures text == old(text[..lo]) + t + old(text[hi..]) && path == old(path)
      ensures modified == (old(modified) || text != old(text))
    {
      var t' := text[..lo] + t + text[hi..];
      modified := modified || t' != text;
      text := t';
      selStart, selEnd := lo, lo + |t|;
      cursor := Point(0, 0);
    }

    /** `setCursorScreenPosition(p)`; nothing else changes. */
    method SetCursorScreenPosition(p: Point)
      requires Valid()
      modifies this`cursor
      ensures Valid() && cursor == p
    {
      cursor := p;
    }
  }
}
