/**
 * The `Transaction` model: its stored fields, the constraints its column
 * declarations put on them, and `Transaction.clean`.
 */
module Models {
  import opened Wrappers

  /** A UUID, as its 128-bit integer value. */
  const UuidSpace: int := 0x1_0000_0000_0000_0000_0000_0000_0000_0000
  type Uuid = u: int | 0 <= u < UuidSpace

  /** A point in time: microseconds since the epoch, read in the active time zone. */
  type Instant = int

  /** A calendar date: days since the epoch. */
  type Date = int

  const MicrosPerDay: int := 86_400_000_000

  /** The date part of a timestamp (`timestamp__date`); Dafny's `/` floors for a positive divisor. */
  function DateOf(t: Instant): (d: Date)
    ensures d * MicrosPerDay <= t < (d + 1) * MicrosPerDay
  {
    t / MicrosPerDay
  }

  /** Later instants never fall on earlier dates. */
  lemma DateOfMonotonic(s: Instant, t: Instant)
    requires s <= t
    ensures DateOf(s) <= DateOf(t)
  {
    assert DateOf(s) * MicrosPerDay <= s <= t < (DateOf(t) + 1) * MicrosPerDay;
  }

  /** A decimal amount with two decimal places, in hundredths. */
  type Cents = int

  /** One stored transaction row (`created_at`, set by the clock on insert, is not modelled). */
  datatype Transaction = Transaction(
    transactionId: Uuid,
    timestamp: Instant,
    amount: Cents,
    currency: string,
    customerId: Uuid,
    productId: Uuid,
    quantity: int)

  /** `amount = DecimalField(max_digits=12, decimal_places=2)`: at most 12 digits, 2 after the point. */
  const MaxAmountCents: int := 999_999_999_999

  /** `currency = CharField(max_length=3, choices=CURRENCY_CHOICES)`. */
  const MaxCurrencyLength: nat := 3
  const CurrencyChoices: seq<string> := ["USD", "EUR"]

  /** What the column declarations allow a stored row to hold (`quantity` is a `PositiveIntegerField`). */
  predicate FieldsValid(t: Transaction) {
    && -MaxAmountCents <= t.amount <= MaxAmountCents
    && |t.currency| <= MaxCurrencyLength
    && t.quantity >= 0
  }

  /** The value `clean` finds in `self.timestamp`: still text, or already a datetime. */
  datatype TimestampValue = Text(text: string) | Moment(instant: Instant)

  /** Django's `ValidationError`: a plain message, or a message keyed by the field it is about. */
  datatype ValidationError = NonFieldError(message: string) | FieldError(field: string, message: string)

  /** The message for a currency outside the allowed list, naming the value and the list. */
  function CurrencyNotAllowedMessage(currency: string): (m: string)
    ensures |m| == |currency| + 62
    ensures m[..10] == "Currency '" && m[10..10 + |currency|] == currency
    ensures m[10 + |currency|..] == "' is not allowed. Allowed currencies: ['USD', 'EUR']"
  {
    "Currency '" + currency + "' is not allowed. Allowed currencies: ['USD', 'EUR']"
  }

  function InvalidDatetimeMessage(text: string): string {
    "Invalid datetime format: " + text
  }

  /**
   * What Django's `parse_datetime` does with a string: a datetime; None when
   * the text is not in the format; or a `ValueError` when it is in the format
   * but names no real moment (`2024-02-30T10:00:00`).
   */
  datatype DateTimeParse = Parsed(instant: Instant) | NoMatch | Raises

  /** What `clean` raises: a `ValidationError`, or the parser's `ValueError`, which `clean` does not catch. */
  datatype CleanError = Invalid(error: ValidationError) | ValueErrorEscapes

  /**
   * `Transaction.clean`: the currency must be one of the choices, compared
   * exactly; then a timestamp still held as text is parsed with `parseDateTime`
   * (Django's `parse_datetime`). On success the result is the timestamp the
   * instance holds afterwards.
   */
  function CleanOutcome(currency: string, timestamp: TimestampValue, parseDateTime: string -> DateTimeParse)
    : (r: Result<TimestampValue, CleanError>)
    ensures r.Success? <==> currency in CurrencyChoices && (timestamp.Text? ==> parseDateTime(timestamp.text).Parsed?)
    ensures r == Failure(ValueErrorEscapes) <==>
              currency in CurrencyChoices && timestamp.Text? && parseDateTime(timestamp.text).Raises?
    ensures r.Success? && timestamp.Moment? ==> r.value == timestamp
    ensures r.Success? && timestamp.Text? ==> r.value == Moment(parseDateTime(timestamp.text).instant)
  {
    if currency !in CurrencyChoices then
      Failure(Invalid(NonFieldError(CurrencyNotAllowedMessage(currency))))
    else
      match timestamp
      case Moment(_) => Success(timestamp)
      case Text(s) =>
        match parseDateTime(s)
        case NoMatch => Failure(Invalid(FieldError("timestamp", InvalidDatetimeMessage(s))))
        case Raises => Failure(ValueErrorEscapes)
        case Parsed(t) => Success(Moment(t))
  }

  /** The currency check comes first: a bad currency is what is reported, whatever the timestamp. */
  lemma CurrencyCheckedFirst(currency: string, timestamp: TimestampValue, parseDateTime: string -> DateTimeParse)
    requires currency !in CurrencyChoices
    ensures var r := CleanOutcome(currency, timestamp, parseDateTime);
            && r.Failure? && r.error.Invalid? && r.error.error.NonFieldError?
            && r.error.error.message == CurrencyNotAllowedMessage(currency)
            && r.error.error.message[10..10 + |currency|] == currency
  {
  }

  /** A textual timestamp not in the format is reported under the key `timestamp`, quoting the text. */
  lemma BadTimestampKeyed(currency: string, text: string, parseDateTime: string -> DateTimeParse)
    requires currency in CurrencyChoices && parseDateTime(text).NoMatch?
    ensures CleanOutcome(currency, Text(text), parseDateTime)
            == Failure(Invalid(FieldError("timestamp", InvalidDatetimeMessage(text))))
  {
  }

  /** A textual timestamp in the format but not a real moment is no `ValidationError`: the `ValueError` escapes. */
  lemma ImpossibleTimestampEscapes(currency: string, text: string, parseDateTime: string -> DateTimeParse)
    requires currency in CurrencyChoices && parseDateTime(text).Raises?
    ensures CleanOutcome(currency, Text(text), parseDateTime) == Failure(ValueErrorEscapes)
    ensures !CleanOutcome(currency, Text(text), parseDateTime).error.Invalid?
  {
  }

  /** The comparison is case-sensitive: lower-case `usd` is refused. */
  lemma CurrencyCaseSensitive(timestamp: TimestampValue, parseDateTime: string -> DateTimeParse)
    ensures CleanOutcome("usd", timestamp, parseDateTime).Failure?
  {
    assert "usd" != "USD" && "usd" != "EUR" by { assert "usd"[0] != "USD"[0]; }
  }

  /** A row that passes `clean` also fits the `currency` column. */
  lemma CleanCurrencyFits(t: Transaction, parseDateTime: string -> DateTimeParse)
    requires CleanOutcome(t.currency, Moment(t.timestamp), parseDateTime).Success?
    requires -MaxAmountCents <= t.amount <= MaxAmountCents && t.quantity >= 0
    ensures FieldsValid(t)
  {
  }

  /**
   * An unsaved instance as `clean` sees it. Only `timestamp` is ever replaced;
   * the other fields are as the caller set them.
   */
  class TransactionInstance {
    var transactionId: Uuid
    var timestamp: TimestampValue
    var amount: Cents
    var currency: string
    var customerId: Uuid
    var productId: Uuid
    var quantity: int

    constructor (transactionId: Uuid, timestamp: TimestampValue, amount: Cents, currency: string,
                 customerId: Uuid, productId: Uuid, quantity: int)
      ensures this.transactionId == transactionId && this.timestamp == timestamp
      ensures this.amount == amount && this.currency == currency
      ensures this.customerId == customerId && this.productId == productId && this.quantity == quantity
    {
      this.transactionId := transactionId;
      this.timestamp := timestamp;
      this.amount := amount;
      this.currency := currency;
      this.customerId := customerId;
      this.productId := productId;
      this.quantity := quantity;
    }

    /**
     * `Transaction.clean`: returns the error it raises, if any; on success
     * a textual timestamp has been replaced in place by the parsed value.
     */
    method Clean(parseDateTime: string -> DateTimeParse) returns (error: Option<CleanError>)
      modifies this`timestamp
      ensures var outcome := CleanOutcome(currency, old(timestamp), parseDateTime);
              && (outcome.Failure? ==> error == Some(outcome.error) && timestamp == old(timestamp))
              && (outcome.Success? ==> error == None && timestamp == outcome.value)
    {
      if currency !in CurrencyChoices {
        return Some(Invalid(NonFieldError(CurrencyNotAllowedMessage(currency))));
      }
      if timestamp.Text? {
        var parsed := parseDateTime(timestamp.text);
        if parsed.NoMatch? {
          return Some(Invalid(FieldError("timestamp", InvalidDatetimeMessage(timestamp.text))));
        } else if parsed.Raises? {
          return Some(ValueErrorEscapes);
        }
        timestamp := Moment(parsed.instant);
      }
      return None;
    }
  }
}
