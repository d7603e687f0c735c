/** Telling domestic tickers from overseas ones (ticker.py). */
module Tickers {

  predicate IsTickerChar(c: char) {
    '0' <= c <= '9' || 'A' <= c <= 'Z'
  }

  /** Exactly six digits or capital letters. The pattern's closing anchor also lets one newline follow. */
  predicate IsDomestic(ticker: string) {
    && (|ticker| == 6 || (|ticker| == 7 && ticker[6] == '\n'))
    && forall c <- ticker[..6] :: IsTickerChar(c)
  }

  /** A domestic ticker is six digits or capital letters, followed by nothing or by one newline. */
  lemma DomesticMeans(ticker: string)
    ensures IsDomestic(ticker) <==>
              exists six: string :: (ticker == six || ticker == six + "\n") && |six| == 6 &&
                forall c <- six :: '0' <= c <= '9' || 'A' <= c <= 'Z'
  {
    if IsDomestic(ticker) {
      assert ticker == ticker[..6] || ticker == ticker[..6] + "\n";
    }
    if six: string :| (ticker == six || ticker == six + "\n") && |six| == 6 && forall c <- six :: '0' <= c <= '9' || 'A' <= c <= 'Z' {
      assert ticker[..6] == six;
    }
  }
}
