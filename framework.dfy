/**
 * The framework helpers the source calls but whose code is not part of this
 * model. Each is an arbitrary (but deterministic) function: nothing is assumed
 * about Str::slug, the email rule or PHP's is_numeric beyond that.
 */
module Framework {

  datatype Helpers = Helpers(
    slug: string -> string,      // Illuminate\Support\Str::slug
    isEmail: string -> bool,     // the validator's `email` rule on a string
    isNumeric: string -> bool)   // PHP is_numeric on a string
}
