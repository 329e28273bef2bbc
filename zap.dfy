/** The part of a zap structured logger that the service relies on: the fields bound to it. */
module Zap {

  /** A field as zap.String(key, value) builds it. */
  datatype Field = Field(key: string, value: string)

  /** Where a logger's entries go. Log output itself is not modelled; the core only tells the
      logger zap.NewExample() returns from the loggers the application configures. */
  datatype Core = ExampleCore | AppCore(name: string)

  /** A logger: its core and the fields every entry it writes carries, oldest first. */
  datatype Logger = Logger(core: Core, fields: seq<Field>) {

    /** Logger.With: a child logger writing to the same core, with the field added after the existing ones. */
    function With(f: Field): (child: Logger) {
      Logger(core, fields + [f])
    }
  }

  /** The logger zap.NewExample() returns: the example core, no fields. */
  const Example := Logger(ExampleCore, [])
}
