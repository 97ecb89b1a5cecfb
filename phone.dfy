/** Phone numbers (`Phone` in main.py): a string value that must be ten
    decimal digits when the phone is built. */
module Phones {
  import opened Errors
  import opened Text

  /** A phone field. Its value is only checked when the phone is built or
      edited, so a value held here need not be valid. */
  datatype Phone = Phone(value: string)

  /** What a phone number is meant to be: exactly ten characters, each a digit. */
  predicate IsValidPhone(s: string)
  {
    |s| == 10 && forall i :: 0 <= i < |s| ==> IsDigit(s[i])
  }

  /** `str.isdigit()` over ASCII: a non-empty string of digits. */
  predicate IsDigits(s: string)
  {
    |s| > 0 && forall i :: 0 <= i < |s| ==> IsDigit(s[i])
  }

  /** `Phone.validate_phone`: raises `ValueError` unless the value is all
      digits and of length ten. */
  function ValidatePhone(value: string): (r: Result<()>)
    ensures r.Ok? <==> IsValidPhone(value)
    ensures r.Err? ==> r.error == ValueError
  {
    if !IsDigits(value) || |value| != 10 then Err(ValueError) else Ok(())
  }

  /** `Phone(value)`: stores the value, then validates it. */
  function NewPhone(value: string): (r: Result<Phone>)
    ensures r.Ok? <==> IsValidPhone(value)
    ensures r.Ok? ==> r.value.value == value
    ensures r.Err? ==> r.error == ValueError
  {
    var p := Phone(value);
    match ValidatePhone(p.value)
    case Ok(_) => Ok(p)
    case Err(e) => Err(e)
  }
}
