/** Instrument value objects (pkg/instrument): equities and European options. Every field
    is set once by a constructor and read through a getter. The `Instrument` interface is the
    union of the two kinds the package defines; an option's underlying is any instrument. */
module Instrument {

  /** The kinds of instrument, `"EQUITY"`, `"BOND"` and `"OPTION"`. */
  datatype InstrumentType = TypeEquity | TypeBond | TypeOption

  /** `"CALL"` or `"PUT"`. */
  datatype OptionType = Call | Put

  /** `"EUROPEAN"` or `"AMERICAN"`. */
  datatype ExerciseStyle = European | American

  /** An instant, as nanoseconds since an epoch; `time.Time` is only stored and returned. */
  type Time = int

  datatype Equity = Equity(id: string, currency: string, symbol: string)
  {
    function ID(): string
    {
      id
    }

    function Type(): InstrumentType
    {
      TypeEquity
    }

    function Currency(): string
    {
      currency
    }

    function Symbol(): string
    {
      symbol
    }
  }

  datatype Option = Option(
    id: string,
    underlying: Instrument,
    strike: real,
    expiry: Time,
    optionType: OptionType,
    exerciseStyle: ExerciseStyle)
  {
    function ID(): string
    {
      id
    }

    function Type(): InstrumentType
    {
      TypeOption
    }

    /** An option is denominated in its underlying's currency. */
    function Currency(): string
    {
      underlying.Currency()
    }

    function Underlying(): Instrument
    {
      underlying
    }

    function Strike(): real
    {
      strike
    }

    function Expiry(): Time
    {
      expiry
    }

    function OptionType(): OptionType
    {
      optionType
    }

    function Style(): ExerciseStyle
    {
      exerciseStyle
    }
  }

  /** The `Instrument` interface: an identifier, a kind and a currency. */
  datatype Instrument = EquityInstrument(equity: Equity) | OptionInstrument(option: Option)
  {
    function ID(): string
    {
      match this
      case EquityInstrument(e) => e.ID()
      case OptionInstrument(o) => o.ID()
    }

    function Type(): InstrumentType
    {
      match this
      case EquityInstrument(e) => e.Type()
      case OptionInstrument(o) => o.Type()
    }

    function Currency(): string
    {
      match this
      case EquityInstrument(e) => e.Currency()
      case OptionInstrument(o) => o.Currency()
    }

    /** The equity at the bottom of a chain of options on options. */
    function BaseEquity(): Equity
    {
      match this
      case EquityInstrument(e) => e
      case OptionInstrument(o) => o.underlying.BaseEquity()
    }
  }

  function NewEquity(id: string, currency: string, symbol: string): (e: Equity)
    ensures e.ID() == id && e.Currency() == currency && e.Symbol() == symbol
    ensures e.Type() == TypeEquity
  {
    Equity(id, currency, symbol)
  }

  function NewEuropeanOption(id: string, underlying: Instrument, strike: real, expiry: Time, optType: OptionType): (o: Option)
    ensures o.ID() == id && o.Underlying() == underlying && o.Strike() == strike
    ensures o.Expiry() == expiry && o.OptionType() == optType
    ensures o.Style() == European
    ensures o.Type() == TypeOption
    ensures o.Currency() == underlying.Currency()
  {
    Option(id, underlying, strike, expiry, optType, European)
  }

  // ---------------------------------------------------------------------------------------
  // Properties

  /** Seen through the interface, an equity and an option keep their identifier, kind and
      currency. */
  lemma InterfaceAgrees(e: Equity, o: Option)
    ensures EquityInstrument(e).ID() == e.ID() && EquityInstrument(e).Type() == e.Type()
    ensures EquityInstrument(e).Currency() == e.Currency()
    ensures OptionInstrument(o).ID() == o.ID() && OptionInstrument(o).Type() == o.Type()
    ensures OptionInstrument(o).Currency() == o.Currency()
  {
  }

  /** An instrument's currency is that of the equity its option chain ends in. */
  lemma {:induction false} CurrencyIsBaseEquityCurrency(i: Instrument)
    ensures i.Currency() == i.BaseEquity().currency
  {
    match i
    case EquityInstrument(_) =>
    case OptionInstrument(o) =>
      CurrencyIsBaseEquityCurrency(o.underlying);
  }

  /** No two European options built from one equity can disagree on currency, whatever
      their other terms. */
  lemma OptionsOnOneEquityShareCurrency(e: Equity, id1: string, id2: string, k1: real, k2: real, t1: Time, t2: Time, ot1: OptionType, ot2: OptionType)
    ensures NewEuropeanOption(id1, EquityInstrument(e), k1, t1, ot1).Currency()
      == NewEuropeanOption(id2, EquityInstrument(e), k2, t2, ot2).Currency()
      == e.currency
  {
  }

  /** The package tests: an AAPL equity quoted in USD, and a call on it struck at 150. */
  lemma OptionExample(expiry: Time)
    ensures var underlying := NewEquity("AAPL-US", "USD", "AAPL");
      var opt := NewEuropeanOption("AAPL-CALL-150", EquityInstrument(underlying), 150.0, expiry, Call);
      && underlying.ID() == "AAPL-US" && underlying.Currency() == "USD" && underlying.Symbol() == "AAPL"
      && underlying.Type() == TypeEquity
      && opt.ID() == "AAPL-CALL-150" && opt.Underlying() == EquityInstrument(underlying)
      && opt.Strike() == 150.0 && opt.Expiry() == expiry
      && opt.OptionType() == Call && opt.Style() == European && opt.Type() == TypeOption
      && opt.Currency() == "USD"
  {
  }
}
