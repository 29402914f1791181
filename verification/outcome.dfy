/** The ways the expense pipeline of SBAK.py stops with an exception instead of
    producing a value, and the result type that carries them. */
module Outcome {

  datatype Error =
    /** `KeyError`: a column the pipeline indexes (`df['date']`, `filtered['amount']`) is absent. */
    | MissingColumn(name: string)
    /** `ValueError` from `float(text)` when the matched numeral holds no digit. */
    | NotANumber(text: string)
    /** `TypeError`/`ValueError` when the amount column of the row at this position holds
        text or a timestamp, which `sum` and the `:,.2f` format cannot total. */
    | NonNumericAmount(row: nat)

  datatype Result<T> = Ok(value: T) | Err(error: Error)

  datatype Option<T> = None | Some(value: T)
}
