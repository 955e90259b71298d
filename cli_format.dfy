/**
 * The output options of the plugin's WP-CLI commands (src/cli/class-command.php):
 * the associative arguments given on the command line are reduced to the
 * three options the formatter takes, `fields`, `field` and `format`.
 */
module CliFormat {

  /** A PHP value as WP-CLI passes it: a string, `true` for a bare flag, or null. */
  datatype Value = Null | Bool(b: bool) | Str(s: string)

  type AssocArgs = map<string, Value>

  /** The formats the plugin lets through. */
  const ValidFormats: seq<string> := ["count", "ids", "table", "csv", "json"]

  /** The format used when none valid is given. */
  const DefaultFormat: string := "table"

  /** `isset($args[key])`: present and not null. */
  predicate IsSet(args: AssocArgs, key: string) {
    key in args && !args[key].Null?
  }

  /** PHP's `empty`: missing, null, false, "" or "0". */
  predicate Empty(args: AssocArgs, key: string) {
    key !in args || args[key] in {Null, Bool(false), Str(""), Str("0")}
  }

  /** The non-empty argument is one of the formats, compared strictly (so only a string can match). */
  predicate AcceptedFormat(args: AssocArgs) {
    !Empty(args, "format") && args["format"].Str? && args["format"].s in ValidFormats
  }

  /** `get_default_format_fields` of the base command: no default field list, so `fields` stays unset. */
  function DefaultFormatFields(): (v: Value)
    ensures GetFormatArgs(v, map[])["fields"] == Null
  {
    Null
  }

  /**
   * `get_format_args`, for a command whose `get_default_format_fields`
   * gives `defaults`: `fields` and `field` are copied when set, otherwise
   * they keep the defaults; `format` is copied only when it is accepted.
   */
  function GetFormatArgs(defaults: Value, args: AssocArgs): (r: map<string, Value>)
    ensures r.Keys == {"fields", "field", "format"}
    ensures IsSet(args, "fields") ==> r["fields"] == args["fields"]
    ensures !IsSet(args, "fields") ==> r["fields"] == defaults
    ensures IsSet(args, "field") ==> r["field"] == args["field"]
    ensures !IsSet(args, "field") ==> r["field"] == Null
    ensures r["format"].Str? && r["format"].s in ValidFormats
    ensures AcceptedFormat(args) <==> "format" in args && r["format"] == args["format"]
    ensures !AcceptedFormat(args) ==> r["format"] == Str(DefaultFormat)
  {
    var fields := if IsSet(args, "fields") then args["fields"] else defaults;
    var field := if IsSet(args, "field") then args["field"] else Null;
    var format := if AcceptedFormat(args) then args["format"] else Str(DefaultFormat);
    map["fields" := fields, "field" := field, "format" := format]
  }

  /** With no arguments the base command gets no fields, no field and the table format. */
  lemma NoArgsGivesDefaults()
    ensures GetFormatArgs(DefaultFormatFields(), map[]) ==
              map["fields" := Null, "field" := Null, "format" := Str("table")]
  {
  }

  /** Feeding the options back in as arguments gives the same options. */
  lemma FormatArgsIdempotent(defaults: Value, args: AssocArgs)
    ensures GetFormatArgs(defaults, GetFormatArgs(defaults, args)) == GetFormatArgs(defaults, args)
  {
    var r := GetFormatArgs(defaults, args);
    assert AcceptedFormat(r);
  }
}
