/**
 * The loop both scripts use in `clean`: for each symbol of a fixed list,
 * `text = text.replace(symbol, '')`. The two scripts differ only in the list.
 */
module Normalize {
  import opened Text

  /** Removes every symbol of `symbols` from `text`, one symbol per pass; the
      result is `text` with exactly those characters filtered out. */
  method CleanWith(text: string, symbols: seq<char>) returns (r: string)
    ensures r == Filter(text, symbols)
  {
    FilterKeepsClean(text, []);
    assert symbols[..0] == [];
    r := text;
    for i := 0 to |symbols|
      invariant r == Filter(text, symbols[..i])
    {
      ReplaceByEmpty(r, symbols[i]);
      FilterTwice(text, symbols[..i], [symbols[i]]);
      assert symbols[..i + 1] == symbols[..i] + [symbols[i]];
      r := ReplaceChar(r, symbols[i], "");
    }
    assert symbols[..|symbols|] == symbols;
  }
}
