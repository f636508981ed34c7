/** The exchanges and their fees: enums/exchange.py. */
module Exchanges {
  datatype Exchange = Poloniex | Kraken | Bittrex | Binance | Huobi

  /** In percent of what is traded. */
  function Fee(exchange: Exchange): real {
    match exchange
    case Poloniex => 0.25
    case Kraken => 0.26
    case Bittrex => 0.25
    case Binance => 0.1
    case Huobi => 0.2
  }
}
