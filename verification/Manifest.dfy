/** The helper names the package exports to query and quality blocks (vocab_companion/src/lib.rs). */
module Manifest {

  function ValueHelpers(): set<string> {
    {"col", "lit", "always_false", "always_true", "bool_expr", "bool_lit", "float_expr", "int_expr", "int_lit",
     "str_expr", "str_lit"}
  }

  function AggregateHelpers(): set<string> {
    {"count", "count_expr", "count_distinct", "count_if", "sum", "avg", "min", "max", "approx_count_distinct",
     "approx_percentile"}
  }

  function SketchHelpers(): set<string> {
    {"hll_deserialize", "hll_estimate", "hll_merge", "hll_serialize", "hll_sketch"}
  }

  function VariantHelpers(): set<string> {
    {"is_array", "is_boolean", "is_float", "is_integer", "is_null_value", "is_object", "is_string", "is_timestamp",
     "parse_variant_json", "try_parse_variant_json", "typeof", "variant_get"}
  }

  function MathHelpers(): set<string> {
    {"abs", "acos", "asin", "atan", "atan2", "ceil", "cos", "degrees", "exp", "floor", "greatest", "least", "ln",
     "log", "log10", "power", "radians", "round", "sign", "sin", "sqrt", "tan"}
  }

  function TextHelpers(): set<string> {
    {"char_length", "concat", "concat_ws", "lcase", "left", "lower", "lpad", "ltrim", "octet_length", "overlay",
     "position", "repeat", "replace", "right", "rpad", "rtrim", "split_part", "substr", "substring", "translate",
     "trim", "ucase", "upper", "base64", "decode", "encode", "hex", "unbase64", "unhex", "regexp_extract",
     "regexp_like", "regexp_replace"}
  }

  function TimeHelpers(): set<string> {
    {"current_date", "current_time", "current_timestamp", "date_add", "date_diff", "date_part", "date_sub",
     "date_trunc", "dateadd", "datediff", "extract", "from_unixtime", "last_day", "make_date", "make_time",
     "make_timestamp", "time_trunc", "timestamp_diff", "to_date", "to_time", "to_timestamp", "unix_micros",
     "unix_millis", "unix_seconds"}
  }

  function CollectionHelpers(): set<string> {
    {"array", "array_contains", "array_distinct", "array_except", "array_flatten", "array_intersect", "array_join",
     "array_position", "array_range", "array_reverse", "array_slice", "array_sort", "array_union", "arrays_overlap",
     "cardinality", "element_at", "map_contains_key", "map_entries", "map_extract", "map_from_arrays", "map_keys",
     "map_values", "named_struct"}
  }

  function GeneratorHelpers(): set<string> {
    {"explode", "explode_outer", "flatten", "inline", "inline_outer", "posexplode", "posexplode_outer", "stack"}
  }

  function WindowHelpers(): set<string> {
    {"window", "row_number", "rank", "dense_rank", "percent_rank", "cume_dist", "ntile", "lag", "lead", "first_value",
     "last_value", "nth_value", "current_row", "following", "preceding", "unbounded_following", "unbounded_preceding"}
  }

  function HashHelpers(): set<string> {
    {"md5", "crc32", "sha1", "sha2", "sha224", "sha256", "sha384", "sha512", "xxhash64"}
  }

  function FormatHelpers(): set<string> {
    {"parse_url", "try_url_decode", "url_decode", "url_encode", "check_json", "from_json", "get_json_object",
     "json_array_length", "json_extract_path_text", "json_object_keys", "parse_json", "schema_of_json", "to_json",
     "try_from_json", "from_csv", "schema_of_csv", "to_csv"}
  }

  function OperatorHelpers(): set<string> {
    {"add", "sub", "mul", "div", "modulo", "eq", "ne", "lt", "lte", "gt", "gte", "and_", "or_", "not_", "neg"}
  }

  function ConditionHelpers(): set<string> {
    {"equal_null", "cast", "try_cast", "safe_cast", "between", "in_", "is_nan", "is_not_nan", "is_not_null",
     "is_null", "case_when", "coalesce", "nullif"}
  }

  function OrderingHelpers(): set<string> {
    {"asc", "asc_nulls_first", "asc_nulls_last", "desc", "desc_nulls_first", "desc_nulls_last"}
  }

  function PlanHelpers(): set<string> {
    {"aggregate_as", "with_column_assignment"}
  }

  function QueryHelpers(): set<string> {
    ValueHelpers() + AggregateHelpers() + SketchHelpers() + VariantHelpers() + MathHelpers() +
    TextHelpers() + TimeHelpers() + CollectionHelpers() + GeneratorHelpers() + WindowHelpers() +
    HashHelpers() + FormatHelpers() + OperatorHelpers() + ConditionHelpers() + OrderingHelpers() +
    PlanHelpers()
  }

  function QualityHelpers(): set<string> {
    {"row_count", "null_rate", "unique", "group_row_count", "cross_relation_row_count_equal"}
  }

  /** What `helper_exported` answers yes for. */
  function Exported(): set<string> {
    QueryHelpers() + QualityHelpers()
  }
}
