/**
  Print, parse and minify as they are called: what the printer leaves in its
  buffer is what the parser, or the minifier, is given.
 */
module RoundTrip {
  import opened CStrings
  import opened JsonValues
  import opened JsonText
  import opened ParseSpec
  import opened Printer
  import opened Parser
  import opened ParseRoundTrip
  import opened Grammar
  import opened Comments
  import opened Minify
  import opened MinifyText

  /** cJSON_Parse of what cJSON_Print returned, terminator included. */
  method ParseWhatWasPrinted(j: Json, format: bool, requireTerminator: bool) returns (r: Option<Json>)
    requires IsCJson(j) && |Text(j, format, 0)| + 2 <= INT_MAX
    ensures r == Some(j) <==> Depth(j) <= NESTING_LIMIT
  {
    hide Text;
    hide ParseBytes;
    var printed := Print(j, format);
    r := Parse(printed.value + [NUL], requireTerminator);
    PrintThenParse(j, format, requireTerminator);
  }

  /** cJSON_Minify of what cJSON_Print left in a buffer is what cJSON_PrintUnformatted returns. */
  method MinifyWhatWasPrinted(j: Json, length: nat) returns (same: bool)
    requires |Text(j, true, 0)| + 2 <= length <= INT_MAX && |Text(j, false, 0)| + 2 <= INT_MAX
    ensures same <==> Steady(j, true)
  {
    hide Text;
    hide Minified;
    hide Steady;
    var ok, buffer := PrintPreallocated(j, length, true);
    var plain := Print(j, false);
    Terminated(buffer, Text(j, true, 0));
    Minify.Minify(buffer);
    MinifyFormatted(j);
    same := Truncate(buffer[..]) == plain.value;
  }

  /** cJSON_Parse of what cJSON_Minify has left of a document with comments. */
  method ParseWhatWasMinified(a: array<char>, requireTerminator: bool, ghost before: string, ghost s: Syntax, ghost after: string)
    returns (r: Option<Json>)
    requires NUL in a[..] && Truncate(a[..]) == before + (Written(s) + after)
    requires IsGap(before) && Commented(s) && IsGap(after)
    modifies a
    ensures r == Some(ValueOf(s)) <==> Depth(ValueOf(s)) <= NESTING_LIMIT
  {
    hide Minified;
    hide ParseBytes;
    hide Written;
    Minify.Minify(a);
    r := Parse(Truncate(a[..]) + [NUL], requireTerminator);
    MinifyThenParse(before, s, after, requireTerminator);
  }

  lemma Terminated(buffer: array<char>, text: string)
    requires Truncate(buffer[..]) == text && |text| < buffer.Length
    ensures NUL in buffer[..]
  {
    assert buffer[..][|text|] == NUL;
  }
}
