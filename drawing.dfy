/** Terminal colouring and the centred header line (sve/drawing.py).
    The terminal width, which the program reads from `stty size`, is a
    parameter, and the line is returned instead of printed. */
module Drawing {
  import opened Results
  import Words

  datatype DrawError =
    | UnknownColor(clr: string)   // `sys.exit('error: unknown color: ...')`
    | TerminalTooSmall            // `sys.exit('error: terminal is too small')`

  /** The suffix that resets the terminal attributes. */
  const Reset: string := "\U{1b}[0m"

  /** The escape prefixes `color` knows as written: bold red, bold green
      and bold default. */
  function CodeAsWritten(clr: string): Option<string>
  {
    if clr == "r" then Some("\U{1b}[31;1m")
    else if clr == "g" then Some("\U{1b}[32;1m")
    else if clr == "n" then Some("\U{1b}[1m")
    else None
  }

  /** The colour codes the program passes to `header`, which include the
      yellow 'y' of the "no tests" lines. */
  const Colors: set<string> := {"r", "g", "n", "y"}

  /** The prefixes with the yellow code the callers rely on added. */
  function Code(clr: string): Option<string>
  {
    if clr == "y" then Some("\U{1b}[33;1m") else CodeAsWritten(clr)
  }

  /** Splits a coloured string back into its colour code and message. */
  function Uncolor(s: string): Option<(string, string)>
  {
    if |s| < |Reset| || s[|s| - |Reset|..] != Reset then None
    else
      var body := s[..|s| - |Reset|];
      if Words.StartsWith(body, "\U{1b}[31;1m") then Some(("r", body[7..]))
      else if Words.StartsWith(body, "\U{1b}[32;1m") then Some(("g", body[7..]))
      else if Words.StartsWith(body, "\U{1b}[33;1m") then Some(("y", body[7..]))
      else if Words.StartsWith(body, "\U{1b}[1m") then Some(("n", body[4..]))
      else None
  }

  /** Wrapping a message in a known prefix and the reset suffix can be undone
      by `Uncolor`: the four prefixes differ within their first four
      characters, so only the right one matches. */
  lemma UncolorPaint(code: string, clr: string, message: string)
    requires Code(clr) == Some(code)
    ensures Uncolor(code + message + Reset) == Some((clr, message))
  {
    var s := code + message + Reset;
    var body := code + message;
    assert s[..|s| - |Reset|] == body;
    assert s[|s| - |Reset|..] == Reset;
    assert body[..|code|] == code;
    assert body[|code|..] == message;
    assert body[2] == code[2] && body[3] == code[3];
  }

  /** `color` as written: only 'r', 'g' and 'n' are accepted. */
  function ColorAsWritten(message: string, clr: string): (r: Result<string, DrawError>)
    ensures r.Ok? <==> clr in {"r", "g", "n"}
    ensures r.Err? ==> r.error == UnknownColor(clr)
    ensures r.Ok? ==> Uncolor(r.value) == Some((clr, message))
  {
    match CodeAsWritten(clr)
    case None => Err(UnknownColor(clr))
    case Some(code) =>
      UncolorPaint(code, clr, message);
      Ok(code + message + Reset)
  }

  /** `color`, with the yellow code accepted (see the findings): the message
      is wrapped between the colour's escape prefix and the reset suffix, and
      can be recovered from the result. */
  function Color(message: string, clr: string): (r: Result<string, DrawError>)
    ensures r.Ok? <==> clr in Colors
    ensures r.Err? ==> r.error == UnknownColor(clr)
    ensures r.Ok? ==> Uncolor(r.value) == Some((clr, message))
    ensures r.Ok? ==> |r.value| == |Code(clr).value| + |message| + |Reset|
  {
    match Code(clr)
    case None => Err(UnknownColor(clr))
    case Some(code) =>
      UncolorPaint(code, clr, message);
      Ok(code + message + Reset)
  }

  /** Python's `a // b` for a positive divisor: the quotient rounded towards
      minus infinity. */
  function FloorDiv(a: int, b: int): (q: int)
    requires b > 0
    ensures q * b <= a < q * b + b
  {
    a / b
  }

  /** Python's `s * n`: `n` copies of `s`, and the empty string when `n` is
      zero or negative. */
  function Repeat(s: string, n: int): (r: string)
    ensures |r| == if n <= 0 then 0 else n * |s|
    ensures n > 0 ==> r[..|s|] == s
    ensures forall i :: |s| <= i < |r| ==> r[i] == r[i - |s|]
    ensures |s| == 1 ==> forall i :: 0 <= i < |r| ==> r[i] == s[0]
    decreases n
  {
    if n <= 0 then "" else s + Repeat(s, n - 1)
  }

  /** The border printed on each side of the title: for a one-character
      border type, the longest run of it that fits twice beside the title
      and its two spaces, and nothing when even one character does not. */
  function Border(title: string, borderType: string, termWidth: int): (r: string)
    ensures |borderType| == 1 ==> forall i :: 0 <= i < |r| ==> r[i] == borderType[0]
    ensures |borderType| == 1 && termWidth >= |title| + 2 ==>
      2 * |r| + |title| + 2 <= termWidth < 2 * |r| + |title| + 4
    ensures termWidth < |title| + 4 ==> r == ""
  {
    Repeat(borderType, FloorDiv(termWidth - |title| - 2, 2))
  }

  /** The parity correction appended after the right border: empty exactly
      when the width and the title length have the same parity, otherwise
      one border string. */
  function Extra(title: string, borderType: string, termWidth: int): (r: string)
    ensures r == if termWidth % 2 == |title| % 2 then "" else borderType
  {
    if termWidth % 2 == 0 then
      (if |title| % 2 == 0 then "" else borderType)
    else
      (if |title| % 2 != 0 then "" else borderType)
  }

  /** The header line before colouring: the title between two equal borders,
      plus the parity correction. */
  function HeaderLine(title: string, borderType: string, termWidth: int): (r: Result<string, DrawError>)
    ensures r.Err? <==> termWidth < |title|
    ensures r.Err? ==> r.error == TerminalTooSmall
  {
    if termWidth < |title| then Err(TerminalTooSmall)
    else
      var border := Border(title, borderType, termWidth);
      Ok(border + " " + title + " " + border + Extra(title, borderType, termWidth))
  }

  /** `header`: the header line in the requested colour. The width check comes
      before the colour check, as in the program. */
  function Header(title: string, clr: string, borderType: string, termWidth: int): (r: Result<string, DrawError>)
    ensures r.Ok? <==> termWidth >= |title| && clr in Colors
    ensures termWidth < |title| ==> r == Err(TerminalTooSmall)
    ensures termWidth >= |title| && clr !in Colors ==> r == Err(UnknownColor(clr))
    ensures r.Ok? ==> Uncolor(r.value) == Some((clr, HeaderLine(title, borderType, termWidth).value))
  {
    var line :- HeaderLine(title, borderType, termWidth);
    Color(line, clr)
  }

  /** With room for the title and its two spaces and a one-character border,
      the uncoloured header is exactly as wide as the terminal. */
  lemma HeaderFillsWidth(title: string, borderType: string, termWidth: int)
    requires termWidth >= |title| + 2 && |borderType| == 1
    ensures HeaderLine(title, borderType, termWidth).Ok?
    ensures |HeaderLine(title, borderType, termWidth).value| == termWidth
  {
    var n := FloorDiv(termWidth - |title| - 2, 2);
    assert |Border(title, borderType, termWidth)| == n;
    var e := Extra(title, borderType, termWidth);
    assert |e| == (termWidth - |title|) % 2;
  }

  /** The title is centred: it starts right after the left border and a space,
      and the right padding (a space, the border, the correction) is as long
      as the left padding or one longer. */
  lemma HeaderCentred(title: string, borderType: string, termWidth: int)
    requires termWidth >= |title| && |borderType| == 1
    ensures HeaderLine(title, borderType, termWidth).Ok?
    ensures var line := HeaderLine(title, borderType, termWidth).value;
            var left := |Border(title, borderType, termWidth)| + 1;
            var right := |line| - left - |title|;
            && line[left..left + |title|] == title
            && line[..left - 1] == line[left + |title| + 1..left + |title| + left]
            && left <= right <= left + 1
  {
    var border := Border(title, borderType, termWidth);
    var line := HeaderLine(title, borderType, termWidth).value;
    var e := Extra(title, borderType, termWidth);
    assert line == border + " " + title + " " + border + e;
    var left := |border| + 1;
    assert line[left..left + |title|] == title;
    assert line[left + |title| + 1..left + |title| + left] == border;
  }

  /** The header colour check as written exits on the yellow code that the
      "no tests" header lines ask for, whenever the terminal is wide enough
      for the title (a narrower one exits on the width check first). */
  lemma YellowHeaderExitsAsWritten(title: string, borderType: string, termWidth: int)
    requires termWidth >= |title|
    ensures HeaderLine(title, borderType, termWidth).Ok?
    ensures ColorAsWritten(HeaderLine(title, borderType, termWidth).value, "y") == Err(UnknownColor("y"))
  {
  }

  /** With the yellow code accepted, every colour the program asks for renders
      a header whenever the terminal is wide enough. */
  lemma HeaderRendersProgramColors(title: string, clr: string, borderType: string, termWidth: int)
    requires termWidth >= |title| && clr in {"r", "g", "n", "y"}
    ensures Header(title, clr, borderType, termWidth).Ok?
  {
  }
}
