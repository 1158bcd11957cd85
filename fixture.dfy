/** The scenario generator's fixture records: an event and a command, each a type plus a string-keyed payload. */
module Fixture {
  import opened PhpValues

  datatype Event = Event(eventType: string, data: map<string, PhpValue>, metadata: map<string, PhpValue>)

  datatype Command = Command(commandType: string, data: map<string, PhpValue>)
}
