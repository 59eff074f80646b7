# Plain SQS queue driver — a Dafny model

The package lets a framework queue worker consume Amazon SQS messages from
producers outside the framework. `src/Sqs/Queue.php` subclasses the framework's
SQS driver and does three things:

- it resolves a queue name or URL to a handler class (`getClass`, and a copy
  of that lookup inside `pop`);
- it chooses the body that is sent for a `DispatcherJob` (`createPayload`);
- it rewrites a received message so that its `Body` becomes the framework's
  job envelope `{job, data, attributes, raw, uuid}` (`modifyPayload`, called
  from `pop` on the first received message).

The model is pure. It is made of functions over values, with lemmas that
state what the driver guarantees.

- `wrappers.dfy`: `Option` and `Result`.
- `php.dfy`: the PHP values the driver handles. Arrays are modelled as
  ordered lists of `Entry(key, value)`, with integer or string keys. The file
  also holds the PHP operations the driver applies: reading `$v['k']`,
  `isset`, the assignment `$v['k'] = x`, and string coercion.
  `WellFormed` describes a value PHP can hold: each key appears once, and
  integer-like strings are never string keys.
- `php_array_merge.dfy`: `array_merge`. A string key takes the value from the
  later array. Integer keys are appended and renumbered from 0.
- `php_strings.dfy`: `explode` and `implode`, and the text after the last
  separator.
- `json.dfy`: `json_encode` and `json_decode($s, true)` as a `Codec`, which is
  a pair of functions the model receives. `Lawful` states the two laws the
  model relies on:
  - decoding an encoded well-formed value gives that value back;
  - whatever is decoded is well formed.
- `queue.dfy`: the driver (`GetClass`, `CreatePayload`, `ModifyPayload`,
  `PopHandler`, `Pop`). The configuration is passed in as a `Config` value.
- `queue_properties.dfy`: the lemmas about the driver.

Where the code does not do what the package is meant to do, the model
follows the code:

- A received message whose `Body` is not valid JSON is meant to stop the
  worker with a decode error. When the message's `Attributes` and
  `MessageAttributes` are arrays, the rewrite does not fail. Line 93 calls
  `json_decode` without `JSON_THROW_ON_ERROR`, so the decoded body is `null`.
  `data` becomes `null` and `raw` still carries the text
  (`UndecodableBodyIsKept`).
- A message without `MessageAttributes` is not rewritten. SQS leaves that key
  out for a message sent without message attributes, and the parent driver's
  push sends none. Line 98 then passes `null` to `array_merge`, which raises a
  TypeError (`MissingMessageAttributesFails`, `NoMessageAttributesExample`).
  The round-trip lemmas therefore assume a received message with
  `Attributes` and `MessageAttributes` arrays.
- The fallback for `data` uses `isset`, so a `data` entry that is `null` counts
  as absent. A wrapped job whose payload is `null` therefore reaches its
  handler with the whole sent envelope as `data`, not with `null`
  (`WrappedJobRoundTrip`).
- `pop` does not call `getClass`. Its inline lookup has no falsy check, so for
  the queue URLs `""` and `"0"` it looks the key up instead of using the
  default handler (`PopHandlerResolution`, `PopHandlerDiffersOnFalsy`). For
  every other URL the two agree (`PopHandlerMatchesGetClass`).

## Model

| member | source | states |
|---|---|---|
| `PlainSqsQueue.Falsy` | src/Sqs/Queue.php:41 | `!$queue` on a queue name is PHP's conversion to bool negated. It holds exactly for null, "" and "0" |
| `PlainSqsQueue.GetClass` | src/Sqs/Queue.php:39-48 | In plain PHP, where notices do not throw, handler resolution never fails: the result is the default handler or one of the configured handlers |
| `PlainSqsProperties.GetClassResolution` | src/Sqs/Queue.php:39-47 | A falsy queue name (null, "" or "0") gives the default handler. Any other name gives the handler mapped to the text after its last '/', or the default handler when that key is not mapped |
| `PlainSqsProperties.GetClassIgnoresPrefix` | src/Sqs/Queue.php:43 | For a name that is not falsy, `prefix + "/" + name` resolves exactly as `name` does |
| `PlainSqsProperties.QueueUrlExample` | src/Sqs/Queue.php:43-47 | With the handler map {"orders": "OrdersHandler"}, the URL "https://queue.example/123/orders" resolves to "OrdersHandler" |
| `PlainSqsQueue.HandlerFor` | src/Sqs/Queue.php:45-47 | In plain PHP, where notices do not throw, the handler-map lookup never fails: the result is the default handler or one of the configured handlers |
| `PhpStrings.Explode` | src/Sqs/Queue.php:43 | explode returns at least one piece, and no piece contains the separator |
| `PhpStrings.ImplodeExplode` | src/Sqs/Queue.php:43 | Joining the pieces of explode with the separator gives back the original string |
| `PhpStrings.ExplodeImplode` | src/Sqs/Queue.php:43 | Exploding the join of pieces that contain no separator gives back those pieces |
| `PhpStrings.LastPieceCharacterised` | src/Sqs/Queue.php:43 | A string is the last piece of explode if and only if it is the suffix after the last separator, or the whole string when there is no separator |
| `PhpStrings.LastPieceIgnoresPrefix` | src/Sqs/Queue.php:43 | Whatever comes before the last separator does not change the last piece |
| `PlainSqsQueue.CreatePayload` | src/Sqs/Queue.php:24-33 | The job is handed to the parent driver if and only if it is not a DispatcherJob |
| `PlainSqsProperties.CreatePayloadDecodes` | src/Sqs/Queue.php:30-32 | A plain job's body decodes to its payload, unchanged. Any other dispatcher job's body decodes to exactly the fields job and data: job is getClass(queue) + "@handle" and data is the payload |
| `PlainSqsQueue.MessageRecord` | src/Sqs/Queue.php:91 | A message that is already an array is used as it is. Under a lawful codec a well-formed message gives a well-formed record |
| `PlainSqsProperties.MessageTextDecodes` | src/Sqs/Queue.php:91 | A message handed over as the JSON text of a well-formed record is decoded into that same record |
| `PlainSqsQueue.DataOf` | src/Sqs/Queue.php:97 | data is the body's data entry when isset accepts it, and the whole body otherwise. So data is null only when the decoded body itself is null. A well-formed body gives well-formed data |
| `PlainSqsQueue.ModifyPayload` | src/Sqs/Queue.php:89-106 | The rewrite succeeds if and only if the message record is an array whose Body is not an array and whose Attributes and MessageAttributes are arrays. On success the result is an array whose Body is a string |
| `PlainSqsProperties.RewrittenBodyDecodes` | src/Sqs/Queue.php:89-105 | A successful rewrite of a well-formed message gives a well-formed message whose Body decodes to the envelope built from the original record |
| `PlainSqsProperties.ModifyPayloadEnvelope` | src/Sqs/Queue.php:93-101 | The new Body holds exactly job, data, attributes, raw and uuid, in that order. job is handler + "@handle"; raw is the original Body unchanged; uuid is MessageId. data is the decoded body's data entry when it is set and not null, and the whole decoded body otherwise |
| `PlainSqsProperties.ModifyPayloadAttributes` | src/Sqs/Queue.php:98 | attributes is Attributes merged with MessageAttributes. MessageAttributes wins on a shared string key. Integer-keyed entries of both are all kept, renumbered from 0 |
| `PlainSqsProperties.ModifyPayloadKeepsOtherFields` | src/Sqs/Queue.php:103-105 | Every field other than Body keeps its value. The key order is unchanged, except that Body is appended when it was missing |
| `PlainSqsProperties.MissingMessageAttributesFails` | src/Sqs/Queue.php:98 | An array record whose Body is not an array and which has no MessageAttributes key fails to be rewritten with array_merge's TypeError, whatever its Attributes |
| `PlainSqsProperties.NoMessageAttributesExample` | src/Sqs/Queue.php:98 | The message `{Body: "{}", Attributes: []}` fails to be rewritten with array_merge's TypeError |
| `PlainSqsProperties.UndecodableBodyIsKept` | src/Sqs/Queue.php:93-99 | In a record whose Attributes and MessageAttributes are arrays, a Body that is not valid JSON still gets rewritten: data is null and raw is the original text |
| `PhpArrayMerge.ArrayMerge` | src/Sqs/Queue.php:98 | array_merge fails, with a TypeError, if and only if one of its arguments is not an array |
| `PhpArrayMerge.ArrayMergeStringKey` | src/Sqs/Queue.php:98 | A string key of the merge result has the second array's value when the second array has that key, and the first array's value otherwise |
| `PhpArrayMerge.ArrayMergeIntKeys` | src/Sqs/Queue.php:98 | The integer-keyed entries of the result are the first array's integer-keyed values followed by the second's, under keys 0, 1, 2, ... |
| `PhpArrayMerge.ArrayMergeWellFormed` | src/Sqs/Queue.php:98 | Merging two well-formed arrays gives a well-formed array |
| `Php.Set` | src/Sqs/Queue.php:103 | `$a[k] = v` in place: an existing key keeps its position and gets the new value, a new key is appended, and every other key reads as before |
| `Php.SetWellFormed` | src/Sqs/Queue.php:103 | Assigning a proper key and a well-formed value keeps an array well formed |
| `Php.Lookup` | src/Sqs/Queue.php:93-100 | A lookup finds a value if and only if the key is present, and the value found is stored under that key |
| `Php.Read` | src/Sqs/Queue.php:93-100 | On an array, a present key k reads as the value stored under it, and a missing key reads as null. A value other than null is only ever read from an entry stored under k |
| `Php.Isset` | src/Sqs/Queue.php:97 | isset($v['k']) holds exactly when reading $v['k'] gives a value other than null |
| `Php.WriteOffset` | src/Sqs/Queue.php:103 | `$v['k'] = x` succeeds exactly on an array, null or false; null and false become a new array. On a string it raises the string-offset error. After success the value is an array where k reads as x |
| `Php.WriteOffsetOtherKeys` | src/Sqs/Queue.php:103 | A successful `$v['k'] = x` leaves every other key reading as before |
| `Php.ScalarText` | src/Sqs/Queue.php:93 | The string a non-array Body becomes. A string stays as it is, null and false become "", true becomes "1", and an integer becomes its decimal text: an integer-like string whose digits denote the number, with a "-" sign when it is negative |
| `Php.StringArgument` | src/Sqs/Queue.php:93 | Passing a value to json_decode's string parameter fails if and only if the value is an array |
| `Json.JsonDecode` | src/Sqs/Queue.php:91-93 | json_decode without the throw flag gives null for invalid JSON, and under a lawful codec a well-formed value |
| `PlainSqsQueue.PopHandler` | src/Sqs/Queue.php:67-72 | The handler pop uses is the default handler or a configured handler |
| `PlainSqsProperties.PopHandlerMatchesGetClass` | src/Sqs/Queue.php:67-72 | For every queue URL that is not falsy, pop's inline lookup agrees with getClass |
| `PlainSqsProperties.PopHandlerResolution` | src/Sqs/Queue.php:67-72 | For every queue URL, falsy or not, pop uses the handler mapped to the text after the URL's last '/', or the default handler when that key is not mapped |
| `PlainSqsProperties.PopHandlerDiffersOnFalsy` | src/Sqs/Queue.php:66-72 | For the URL "0" with the handler map {"0": "ZeroHandler"}, and for the URL "" with the map {"": "EmptyHandler"}, pop uses the mapped handler but getClass returns the default handler |
| `PlainSqsQueue.Pop` | src/Sqs/Queue.php:66-81 | An unset or empty Messages list gives no job and no error. A job is returned only when messages were received |
| `PlainSqsProperties.PopRewritesFirstMessageOnly` | src/Sqs/Queue.php:66-74 | With messages present, pop's outcome is the rewrite of Messages[0] for pop's handler, and the later messages do not affect it |
| `PlainSqsProperties.WrappedJobRoundTrip` | src/Sqs/Queue.php:32-97 | A non-plain job that this driver sent, once received in a message whose Attributes and MessageAttributes are arrays, reaches the handler pop resolves with its payload as data. A null payload fails isset, so data is then the whole sent envelope |
| `PlainSqsProperties.WrappedJobKeepsHandler` | src/Sqs/Queue.php:30-96 | A non-plain job sent to queue `name` and popped from a queue URL ending in `/name` arrives with the same job field it was sent with. This holds although the received job is rebuilt from pop's own lookup and the sent one is discarded |
| `PlainSqsProperties.PlainJobRoundTrip` | src/Sqs/Queue.php:32-97 | Once received in a message whose Attributes and MessageAttributes are arrays, a plain job's payload reaches the handler pop resolves whole, unless the payload is an array with a non-null data entry: then only that entry arrives as data |

## Left out

- The SQS `receiveMessage` call (lines 60-64) is network I/O. Its response is an input value, `ReceiveResult`.
- The construction of `SqsJob` and the framework-version regex that picks its constructor (lines 76-80) are left out. The framework's SqsJob class is not part of this model. `Pop` returns the rewritten message that would be wrapped.
- The parent driver's `createPayload` and `getQueue` are framework code. `CreatePayload` returns the marker `ParentPayload` instead of the parent's body. `Pop` takes the queue URL that `getQueue` returns.
- The parameter order of `createPayload($job, $data, $queue)` is assumed to match the caller's. The framework caller is not part of this model, so `CreatePayload` receives the queue name directly.
- Configuration access through the `Config` facade and the container is replaced by the `Config` parameter. Its values are strings, so a missing, `null` default handler is not modelled.
- Byte-level JSON is not modelled: escaping flags, zero-fraction preservation and parsing. `Codec` stands for it, with the laws in `Json.Lawful`.
- Encoding failure is not modelled. Model strings hold Unicode scalar values only, there are no floats, and the 512-level depth limit is ignored.
- PHP floats and objects are not modelled, and integers are unbounded. The 64-bit range, and the rule that integer-like strings beyond it stay string keys, are not modelled.
- Runtime errors follow PHP 8: `array_merge` and `json_decode` raise a TypeError on a wrong argument type. PHP 7 only warned there and returned `null`.
- Notices and warnings do not stop the model, as in plain PHP. A missing key reads as `null`, and `end()` on a temporary (line 43) only emits a notice. A host error handler that turns notices into exceptions is not modelled. Under such a handler, getClass would throw at line 43 for every name that is not falsy. A message without `MessageId` would fail at line 100, where the model rewrites it with `uuid` null. `GetClass` and `HandlerFor` therefore never fail only in plain PHP.
