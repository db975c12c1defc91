/** The collaborators whose code is not part of this model, passed in as
    plain values so that nothing is assumed about them:
    - `replaceArabic`: `pystock_client.utils.custom_string.replace_arabic`;
    - `strcoll`: `locale.strcoll` under the collation locale set by `main`;
    - `isSpace`: the per-character test behind `str.strip()`;
    - `isDigit`: the per-character test behind `str.isdigit()`;
    - `isDecimal`: the character class `\d` of Python's `re` module. */
module Platform {

  datatype Env = Env(
    replaceArabic: string -> string,
    strcoll: (string, string) -> int,
    isSpace: char -> bool,
    isDigit: char -> bool,
    isDecimal: char -> bool)

  /** What a collation comparator is expected to be: a total preorder
      reported through the sign of its result. Only lemmas about ordering
      assume it. */
  ghost predicate IsCollation(strcoll: (string, string) -> int) {
    && (forall x :: strcoll(x, x) == 0)
    && (forall x, y :: strcoll(x, y) < 0 <==> strcoll(y, x) > 0)
    && (forall x, y, z :: strcoll(x, y) <= 0 && strcoll(y, z) <= 0 ==> strcoll(x, z) <= 0)
  }
}
