/**
 * The two slash-separated parts of the "Add Liquidity" URL
 * (src/utils/getLiquidityUrlPathParts.ts). Each part names one side of the LP
 * pair; a quote token whose symbol is `BNB` is written `ETH`.
 */
module LiquidityUrl {
  import opened JsString

  /** The quote side of the pair as it appears in the URL. */
  function QuotePart(quoteTokenAdresses: string, quoteTokenSymbol: string): (first: string)
    ensures quoteTokenSymbol == "BNB" ==> first == "ETH"
    ensures quoteTokenSymbol != "BNB" ==> first == quoteTokenAdresses
  {
    if quoteTokenSymbol == "BNB" then "ETH" else quoteTokenAdresses
  }

  /** `getLiquidityUrlPathParts`: `firstPart/secondPart`. */
  function GetLiquidityUrlPathParts(quoteTokenAdresses: string, quoteTokenSymbol: string, tokenAddresses: string): (path: string)
    ensures path == Join([QuotePart(quoteTokenAdresses, quoteTokenSymbol), tokenAddresses], '/')
  {
    var firstPart := QuotePart(quoteTokenAdresses, quoteTokenSymbol);
    var secondPart := tokenAddresses;
    firstPart + "/" + secondPart
  }

  /** When neither part holds a `/`, splitting the path on `/` gives back the two parts. */
  lemma PathSplitsIntoParts(quoteTokenAdresses: string, quoteTokenSymbol: string, tokenAddresses: string)
    requires '/' !in QuotePart(quoteTokenAdresses, quoteTokenSymbol)
    requires '/' !in tokenAddresses
    ensures Split(GetLiquidityUrlPathParts(quoteTokenAdresses, quoteTokenSymbol, tokenAddresses), '/')
         == [QuotePart(quoteTokenAdresses, quoteTokenSymbol), tokenAddresses]
  {
    SplitJoin([QuotePart(quoteTokenAdresses, quoteTokenSymbol), tokenAddresses], '/');
  }

  /** With the `BNB` symbol the path starts with `ETH/`, whatever the quote address is. */
  lemma BnbPathIgnoresQuoteAddress(a: string, b: string, tokenAddresses: string)
    ensures GetLiquidityUrlPathParts(a, "BNB", tokenAddresses) == GetLiquidityUrlPathParts(b, "BNB", tokenAddresses)
    ensures Split(GetLiquidityUrlPathParts(a, "BNB", tokenAddresses), '/')[0] == "ETH"
  {
    SplitAfterPiece("ETH", tokenAddresses, '/');
    assert GetLiquidityUrlPathParts(a, "BNB", tokenAddresses) == "ETH" + ['/'] + tokenAddresses;
  }
}
