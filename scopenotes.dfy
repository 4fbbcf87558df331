// The word arithmetic of the scope-notes text box: how many words a selection holds, and
// which word a caret lies on, found by walking left and right from the caret.

module ScopenotesWords {

  /** The delimiters of `wordSelectedCount`: space, new line and tab. */
  predicate IsDelimiter(c: char) {
    c == ' ' || c == '\n' || c == '\t'
  }

  /** A word (a token) starts at `i`. */
  predicate IsWordStart(s: string, i: int)
    requires 0 <= i < |s|
  {
    !IsDelimiter(s[i]) && (i == 0 || IsDelimiter(s[i - 1]))
  }

  /** The number of words that start before `n`. */
  function WordStarts(s: string, n: int): (r: nat)
    requires 0 <= n <= |s|
    ensures r <= n
  {
    if n == 0 then 0 else WordStarts(s, n - 1) + (if IsWordStart(s, n - 1) then 1 else 0)
  }

  /** Words start before `n` exactly when a non-delimiter does. */
  lemma {:induction false} NoWordStartsBlank(s: string, n: int)
    requires 0 <= n <= |s|
    ensures WordStarts(s, n) == 0 <==> forall i :: 0 <= i < n ==> IsDelimiter(s[i])
  {
    if n > 0 {
      NoWordStartsBlank(s, n - 1);
    }
  }

  /** `wordSelectedCount(text)`: the number of tokens a `StringTokenizer` with space, new
      line and tab as delimiters finds. */
  method WordSelectedCount(text: string) returns (wordCount: nat)
    ensures wordCount == WordStarts(text, |text|)
    ensures wordCount == 0 <==> forall i :: 0 <= i < |text| ==> IsDelimiter(text[i])
  {
    wordCount := 0;
    var i := 0;
    while i < |text|
      invariant 0 <= i <= |text|
      invariant wordCount == WordStarts(text, i)
      invariant 0 < i < |text| ==> IsDelimiter(text[i - 1]) || IsDelimiter(text[i])
    {
      // skip the delimiters before the next token
      while i < |text| && IsDelimiter(text[i])
        invariant 0 <= i <= |text|
        invariant wordCount == WordStarts(text, i)
        invariant 0 < i < |text| ==> IsDelimiter(text[i - 1]) || IsDelimiter(text[i])
      {
        i := i + 1;
      }
      if i < |text| {
        // the token starts here: count it and skip it
        wordCount := wordCount + 1;
        i := i + 1;
        while i < |text| && !IsDelimiter(text[i])
          invariant 0 < i <= |text|
          invariant wordCount == WordStarts(text, i)
          invariant !IsDelimiter(text[i - 1])
        {
          i := i + 1;
        }
      }
    }
    NoWordStartsBlank(text, |text|);
  }

  /** No space in `text[from..to]`. */
  predicate NoSpace(text: string, from: int, to: int)
    requires 0 <= from <= to <= |text|
  {
    forall k :: from <= k < to ==> text[k] != ' '
  }

  /** `retrieveWordOnTheRight(text, position)`: the index of the last character of the word
      that starts at `position`; `position - 1` when a space is there, and `position` at the
      end of the text. */
  method RetrieveWordOnTheRight(text: string, position: int) returns (r: int)
    requires 0 <= position <= |text|
    ensures position == |text| ==> r == position
    ensures position < |text| ==>
      position - 1 <= r < |text| && NoSpace(text, position, r + 1) && (r + 1 == |text| || text[r + 1] == ' ')
    ensures position < |text| && text[position] == ' ' ==> r == position - 1
  {
    if position == |text| {
      return position;
    }
    var rightPosition := position;
    var currentChar := text[rightPosition];
    if currentChar != ' ' {
      while rightPosition < |text| - 1 && currentChar != ' '
        invariant position <= rightPosition < |text|
        invariant currentChar == text[rightPosition]
        invariant NoSpace(text, position, rightPosition)
      {
        currentChar := text[rightPosition + 1];
        rightPosition := rightPosition + 1;
      }
      if currentChar == ' ' {
        rightPosition := rightPosition - 1;
      }
      return rightPosition;
    } else {
      rightPosition := rightPosition - 1;
      return rightPosition;
    }
  }

  /** `retrieveWordOnTheLeft(text, position)`: the index where the word that ends just
      before `position` starts; `position` itself when a space or the start of the text is
      just before it. */
  method RetrieveWordOnTheLeft(text: string, position: int) returns (r: int)
    requires 0 <= position <= |text|
    ensures 0 <= r <= position && NoSpace(text, r, position) && (r == 0 || text[r - 1] == ' ')
    ensures (position == 0 || text[position - 1] == ' ') ==> r == position
  {
    if position == 0 {
      return position;
    }
    var leftPosition := position - 1;
    var currentChar := text[leftPosition];
    if currentChar != ' ' {
      while leftPosition != 0 && currentChar != ' '
        invariant 0 <= leftPosition < position
        invariant currentChar == text[leftPosition]
        invariant NoSpace(text, leftPosition + 1, position)
      {
        currentChar := text[leftPosition - 1];
        leftPosition := leftPosition - 1;
      }
      if currentChar == ' ' {
        leftPosition := leftPosition + 1;
      }
      return leftPosition;
    } else {
      return position;
    }
  }

  /** `getWordBounds(text, caretPosition)`: the bounds `[b0, b1)` of the word the caret lies
      on, a maximal run without spaces around the caret (the word on the left when the caret
      is at the end of the text or on a space after a word). */
  method GetWordBounds(text: string, caretPosition: int) returns (bounds: (int, int))
    requires 0 <= caretPosition <= |text|
    ensures 0 <= bounds.0 <= caretPosition <= bounds.1 <= |text|
    ensures NoSpace(text, bounds.0, bounds.1)
    ensures bounds.0 == 0 || text[bounds.0 - 1] == ' '
    ensures bounds.1 == |text| || text[bounds.1] == ' '
    ensures caretPosition == |text| ==> bounds.1 == caretPosition
  {
    var leftPosition := caretPosition;
    var rightPosition := caretPosition;
    if caretPosition == |text| {
      leftPosition := RetrieveWordOnTheLeft(text, leftPosition);
      return (leftPosition, rightPosition);
    }
    leftPosition := RetrieveWordOnTheLeft(text, leftPosition);
    rightPosition := RetrieveWordOnTheRight(text, rightPosition);
    if leftPosition == rightPosition && leftPosition != 0 {
      var l := leftPosition;
      leftPosition := RetrieveWordOnTheLeft(text, leftPosition);
      assert NoSpace(text, leftPosition, l);
    }
    return (leftPosition, rightPosition + 1);
  }
}
