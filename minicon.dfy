/** The string handling of the MiniCon battery controller's replies
    (src/data/helperfunctions/minicon/minicon.py): Python's find, 'in' and slicing, and
    the two filters applied to a reply. */
module MiniConReplies {
  import opened Wrappers

  // ---------------------------------------------------------------------------------
  // Python's substring search and slicing

  /** `sub` occurs in `s` at position i. */
  predicate Occurs(s: string, sub: string, i: nat)
  {
    i + |sub| <= |s| && s[i..i + |sub|] == sub
  }

  /** Python's `sub in s`. */
  predicate In(sub: string, s: string)
  {
    exists i: nat :: i <= |s| && Occurs(s, sub, i)
  }

  /** The start position str.find uses: a negative start counts from the end, clamped at 0. */
  function NormStart(n: nat, start: int): nat
  {
    if start >= 0 then start else if start + n >= 0 then start + n else 0
  }

  function FindFrom(s: string, sub: string, i: nat): (r: int)
    ensures r == -1 || (i <= r && Occurs(s, sub, r))
    ensures forall j: nat :: i <= j && (r == -1 || j < r) ==> !Occurs(s, sub, j)
    decreases |s| - i
  {
    if i + |sub| > |s| then -1
    else if s[i..i + |sub|] == sub then i
    else FindFrom(s, sub, i + 1)
  }

  /** Python's s.find(sub, start): the first position at or after the normalised start where
      `sub` occurs, -1 when there is none. */
  function Find(s: string, sub: string, start: int): (r: int)
    ensures r == -1 || (NormStart(|s|, start) <= r && Occurs(s, sub, r))
    ensures forall j: nat :: NormStart(|s|, start) <= j && (r == -1 || j < r) ==> !Occurs(s, sub, j)
  {
    FindFrom(s, sub, NormStart(|s|, start))
  }

  /** Python's clamping of one slice bound: a negative bound counts from the end. */
  function SliceBound(n: nat, i: int): (b: nat)
    ensures b <= n
    ensures i >= 0 ==> b == (if i <= n then i else n)
    ensures i < 0 ==> b == (if i + n >= 0 then i + n else 0)
  {
    if i < 0 then (if i + n >= 0 then i + n else 0) else if i <= n then i else n
  }

  /** Python's s[start:end]. */
  function Slice(s: string, start: int, end: int): string
  {
    var a, b := SliceBound(|s|, start), SliceBound(|s|, end);
    if a < b then s[a..b] else ""
  }

  /** A one-character search finds the first position with that character. */
  lemma FindChar(s: string, c: char, start: int, i: int)
    requires i == -1 || (NormStart(|s|, start) <= i < |s| && s[i] == c)
    requires forall j :: NormStart(|s|, start) <= j < |s| && (i == -1 || j < i) ==> s[j] != c
    ensures Find(s, [c], start) == i
  {
    var r := Find(s, [c], start);
    if r != -1 {
      assert s[r..r + 1] == [s[r]];
    }
    if i != -1 {
      assert s[i..i + 1] == [c];
      assert Occurs(s, [c], i);
    }
  }

  /** `in` holds exactly when a search from the start finds something. */
  lemma InIsFind(s: string, sub: string)
    ensures In(sub, s) <==> Find(s, sub, 0) >= 0
  {
    var r := Find(s, sub, 0);
    if In(sub, s) {
      var i: nat :| i <= |s| && Occurs(s, sub, i);
      assert r != -1;
    }
    if r >= 0 {
      assert r <= |s| && Occurs(s, sub, r);
    }
  }

  /** A search for a longer string finds its first occurrence. */
  lemma FindFirst(s: string, sub: string, start: int, i: int)
    requires i == -1 || (NormStart(|s|, start) <= i && Occurs(s, sub, i))
    requires forall j: nat :: NormStart(|s|, start) <= j && (i == -1 || j < i) ==> !Occurs(s, sub, j)
    ensures Find(s, sub, start) == i
  {
  }

  // ---------------------------------------------------------------------------------
  // _filter_get_response

  /** The value part of a reply to var_ShowValue: when the command is echoed, from just
      after the first line break to one character before the next; otherwise the reply as
      it is. */
  function FilterGetResponse(command: string, response: string): string
  {
    if In(command, response) then
      var start := Find(response, "\n", 0) + 1;
      var end := Find(response, "\n", start) - 1;
      Slice(response, start, end)
    else response
  }

  /** A reply that does not echo the command is passed through unchanged. */
  lemma FilterWithoutEcho(command: string, response: string)
    requires !In(command, response)
    ensures FilterGetResponse(command, response) == response
  {
  }

  /** The searches of the filter find the first two line breaks. */
  lemma FirstTwoBreaks(response: string, i: nat, j: nat)
    requires i < j < |response| && response[i] == '\n' && response[j] == '\n'
    requires forall k :: 0 <= k < j && k != i ==> response[k] != '\n'
    ensures Find(response, "\n", 0) == i && Find(response, "\n", i + 1) == j
  {
    FindChar(response, '\n', 0, i);
    FindChar(response, '\n', i + 1, j);
  }

  /** A reply with line breaks at i and at j, the first two, yields the text between them
      without its last character (the carriage return of a CR LF break). */
  lemma FilterBetweenBreaks(command: string, response: string, i: nat, j: nat)
    requires In(command, response)
    requires i < j < |response| && response[i] == '\n' && response[j] == '\n'
    requires forall k :: 0 <= k < j && k != i ==> response[k] != '\n'
    ensures FilterGetResponse(command, response) ==
      if i + 1 < j - 1 then response[i + 1..j - 1] else ""
  {
    FirstTwoBreaks(response, i, j);
  }

  /** When the first line break is the last one, the end bound -2 of the slice counts from
      the end of the reply: the two last characters are dropped. */
  lemma FilterAfterLastBreak(command: string, response: string, i: nat)
    requires In(command, response)
    requires i < |response| && response[i] == '\n'
    requires forall k :: 0 <= k < |response| && k != i ==> response[k] != '\n'
    ensures FilterGetResponse(command, response) ==
      if i + 1 < |response| - 2 then response[i + 1..|response| - 2] else ""
  {
    FindChar(response, '\n', 0, i);
    FindChar(response, '\n', i + 1, -1);
  }

  /** An echoing reply with no line break at all loses its last two characters. */
  lemma FilterWithoutBreak(command: string, response: string)
    requires In(command, response)
    requires forall k :: 0 <= k < |response| ==> response[k] != '\n'
    ensures FilterGetResponse(command, response) ==
      if |response| > 2 then response[..|response| - 2] else ""
  {
    FindChar(response, '\n', 0, -1);
  }

  // ---------------------------------------------------------------------------------
  // _verify_set_response

  /** The text of a reply to var_DebSetVarByName read as the value: from just after the
      first space at or after the first "string" to one character before the next line
      break. With no "string" in the reply, the space search starts at its last character. */
  function SetValueText(response: string): string
  {
    var tag := Find(response, "string", 0);
    var start := Find(response, " ", tag) + 1;
    var end := Find(response, "\n", start) - 1;
    Slice(response, start, end)
  }

  /** float() of the text raises on text that is not a number. */
  datatype ParseError = ValueError

  /** _verify_set_response, with float() given as `parse`: false when the reply does not
      echo the command, otherwise whether the value read back equals the value set. */
  function VerifySetResponse(command: string, response: string, value: real,
                             parse: string -> Option<real>): (r: Result<bool, ParseError>)
    ensures !In(command, response) ==> r == Ok(false)
    ensures r == Ok(true) <==> In(command, response) && parse(SetValueText(response)) == Some(value)
    ensures r.Err? <==> In(command, response) && parse(SetValueText(response)).None?
  {
    if In(command, response) then
      match parse(SetValueText(response))
      case None => Err(ValueError)
      case Some(x) => Ok(x == value)
    else Ok(false)
  }

  /** In a reply whose first "string" is at i, followed first by a space at j and then by a
      line break at k, the value read is the text between the space and the character
      before the line break. */
  lemma SetValueField(response: string, i: nat, j: nat, k: nat)
    requires Occurs(response, "string", i)
    requires forall m: nat :: m < i ==> !Occurs(response, "string", m)
    requires i <= j < k < |response| && response[j] == ' ' && response[k] == '\n'
    requires forall m :: i <= m < j ==> response[m] != ' '
    requires forall m :: j < m < k ==> response[m] != '\n'
    ensures SetValueText(response) == if j + 1 < k - 1 then response[j + 1..k - 1] else ""
  {
    FindFirst(response, "string", 0, i);
    FindChar(response, ' ', i, j);
    FindChar(response, '\n', j + 1, k);
  }

  /** A typical exchange: the echoed command, a line with the value, and the prompt. */
  lemma FilterExample()
    ensures FilterGetResponse("show b", "show b\r\n57\r\n#") == "57"
  {
    var response := "show b\r\n57\r\n#";
    assert response[0..6] == "show b";
    assert Occurs(response, "show b", 0);
    assert forall k :: 0 <= k < 11 && k != 7 ==> response[k] != '\n';
    var value := response[8..10];
    assert value[0] == '5' && value[1] == '7' && |value| == 2;
    assert value == "57";
    FilterBetweenBreaks("show b", response, 7, 11);
  }
}
