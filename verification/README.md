# A model of the alarm receiver

Two programs receive connections from Intelbras alarm panels: one in Python
(`alarmeitbl`), one in Go (`goalarmeitbl`). Panels send RIP frames that must
each be answered; alarms with pictures lead to a second kind of session, in the
ISECNet2 protocol, that downloads the photos. This project models the parts
that carry state from one event to the next and proves what holds in every run.

| module | what it models |
|---|---|
| `Octetos` | octets and their bits, exclusive-or on them, concatenation |
| `Protocolo` | checksum, Contact-ID and BCD numbers, big-endian words, ISECNet2 packets |
| `Quadros` | RIP frames, the frames of a whole byte stream, alarm and date messages |
| `ReceptorTratador` | the Go handler of one panel connection |
| `TratadorPython` | the Python handler of one panel connection, with its throttling |
| `SessaoFoto` | the Python download session for one photo |
| `FilaFotos` | the Python queue of photos with retries |
| `SessaoTCP` | the goroutines, channels and closing of one Go TCP session |
| `ReceptorNaSessao` | the Go handler running on its session |
| `Contador` | the Go count of connected panels |
| `Temporizadores` | the Python registry of timers |
| `Bits` | the Python listing of bit masks |
| `Vetores` | the codecs on concrete inputs, octet by octet |

Names follow the source. Times are seconds, as `real`; a timer field holds when
the timer is due.
A stateful component is written three ways that are proved to agree: a value
with one pure function per event; a class whose methods update fields as the
source does, each method's contract giving the new state as that function of
the old one; and runs, sequences of events that each must be possible when it
happens. Properties of runs are invariants kept by every event. A field called
`h` (`Historia`) records what happened so far and influences nothing.
`SessaoTCP` and `Contador` are step systems: every interleaving of goroutines is
a sequence of steps, and what `Read` and `Write` return is left open.

The Go and the Python codecs are one model, since they compute the same values;
where they differ the model follows the Go code, except that downloads follow
the Python code. Every arrival, firing, answer and failure is an event that may
happen in any order and at any time the code allows. Only the lemmas about exact
times and deadlines assume more: that timers run when they are due.

Where the code does something other than what its comments or names promise:

- An empty identification ends the Python program (an index error that nothing
  catches): `AbortaExiste` is such a run, and `AbortaNoDisparoSse` and `AbortaSse`
  say that it is the only frame that does and that it always does.
- The Python handler answers a wrong-length identification twice when it lets
  the panel in and once when it does not, and a well-formed one that it does not
  let in not at all. `RespostasDaCorrida` says exactly when a run has one answer
  per frame; `DuasRespostas` is a run with two.
- A timer that is spent or cancelled when its handler is destroyed is not
  invalidated, though the comments say that a handler's timers are, and can be
  armed again. `OrfaoSse` and `Temporizadores.TodaCorrida` say that this rearming is the only
  way a timer of a destroyed handler becomes pending; `QuemDisparouSobrevive`
  and `OrfaoExiste` show it happening.
- The photo queue does not check that its timer is pending when asked for an
  immediate attempt, and is safe exactly when it is (`ImediatoSse`). The photo
  command asks right after queueing, which fails exactly when the password size
  it was given is not positive (`ComandoFalhaSse`). During a download the request
  would start a second one (`ImediatoDuplica`).
- A receive handles at most one ISECNet2 packet (`UmPacotePorVez`), so a second
  packet in the same piece waits for more data or for the timeout.
- A long frame whose body has 0xf7 octets is taken for a heartbeat, one of more
  than 255 has its length cut (`EncodeExtrairSse`).

## Model

| member | source | states |
|---|---|---|
| Protocolo.CalculaChecksum | goalarmeitbl/protocol.go:107-114 | the loop computes the complement of the exclusive-or of all octets |
| Protocolo.BitDoChecksum | goalarmeitbl/protocol.go:107-114 | bit j of the checksum is set if and only if an even number of the octets have bit j |
| Octetos.BitsSomam | alarmeitbl/comandos.py:293-295 | a number is the sum of the powers of two of the bits it has, so bit 0 is the least significant |
| Protocolo.ChecksumSela | goalarmeitbl/protocol.go:259-260 | a string with one octet appended has checksum zero if and only if that octet is the string's checksum |
| Protocolo.ChecksumDetecta | alarmeitbl/utils_proto.py:113-115 | changing any one octet of a string whose checksum is zero makes it nonzero |
| Protocolo.ContactIDDecode | goalarmeitbl/protocol.go:132-150 | the least-significant-first loop computes the decimal value read from the left, or -1 and an error when some octet is not a digit |
| Protocolo.ContactIDEncode | goalarmeitbl/protocol.go:153-169 | the array filled from the right holds the last digits of the absolute value, the digit zero written 0x0a |
| Protocolo.ContactIDIdaEVolta | alarmeitbl/utils_proto.py:38-47 | decoding an encoded number gives its absolute value modulo the power of ten of the width, for every number and width |
| Protocolo.ContactIDVoltaEIda | alarmeitbl/utils_proto.py:21-35 | a string decodes if and only if all its octets are digits, and then encodes back to itself |
| Protocolo.FromBCD | goalarmeitbl/protocol.go:180-197 | succeeds if and only if every nibble is a decimal digit, and then gives the base-100 value |
| Protocolo.BCDIdaEVolta | goalarmeitbl/protocol.go:172-177 | the octet of n reads back as n from 0 to 99 and as 0 for any other n, and its nibbles are always digits |
| Protocolo.BCDVoltaEIda | alarmeitbl/utils_proto.py:49-53 | an octet is the BCD of its own value if and only if both nibbles are decimal digits |
| Protocolo.BE16IdaEVolta | goalarmeitbl/protocol.go:200-208 | a number reads back from its two octets modulo 65536 |
| Vetores.PacotePorExtenso | alarmeitbl/utils_proto.py:75-86 | a packet is 00 00 8f ff, its length, its command, its payload and their checksum |
| Protocolo.PacoteCompletoSse | goalarmeitbl/protocol.go:236-248 | whatever follows it, a packet's length is found right if and only if the payload has fewer than 65534 octets |
| Protocolo.PacoteCorretoEParse | goalarmeitbl/protocol.go:250-272 | a packet passes the correctness test and parses to the command and payload it was made of |
| Protocolo.PrefixoIncompleto | alarmeitbl/utils_proto.py:96-105 | every proper prefix of a packet is reported incomplete |
| Protocolo.PacoteAlteradoIncorreto | alarmeitbl/utils_proto.py:107-115 | a packet with any one octet changed, length field included, fails the correctness test |
| Protocolo.CabecaDoPacote | goalarmeitbl/protocol.go:210-223 | a packet at the head of any buffer is found complete and correct, parses to its message, and leaves what followed it |
| Protocolo.MensagensConcat | alarmeitbl/comandos.py:53-65 | cutting packets before the rest of the stream arrives gives the same messages and the same leftover |
| Protocolo.MensagensDosPacotes | alarmeitbl/utils_proto.py:98-123 | any list of packets followed by a cut-short one splits back into exactly that list and that leftover |
| Vetores.ChecksumDoTeste | goalarmeitbl/protocol_test.go:8-14 | the checksum that the repository expects |
| Vetores.ContactIDDoTeste | goalarmeitbl/protocol_test.go:39-70 | the Contact-ID numbers, errors and digits that the repository expects |
| Vetores.BCDDoTeste | goalarmeitbl/protocol_test.go:72-104 | the BCD octets and numbers that the repository expects |
| Vetores.AuthDoTeste | goalarmeitbl/protocol_test.go:106-111 | the authentication packet for password 123456, octet by octet |
| Vetores.ByeDoTeste | goalarmeitbl/protocol_test.go:161-167 | the farewell packet, octet by octet |
| Vetores.PacoteDoTeste | goalarmeitbl/protocol_test.go:176-181 | the packet for command 0xcafe and payload ba be, octet by octet |
| Vetores.DataHoraEscrita | goalarmeitbl/protocol.go:294-312 | the octets of the date answer for a given moment, and of the generic answer |
| Vetores.AlarmeEscrito | goalarmeitbl/protocol.go:386-443 | the octets of the fields of a given alarm, in the order in which they are parsed |
| Quadros.QuadroPorExtenso | goalarmeitbl/protocol.go:314-355 | there is a frame if and only if the head is 0xf7 or as many octets are there as it says and two more; it is the heartbeat, or has the type and payload found at those places |
| Quadros.ExtracaoEstavel | goalarmeitbl/protocol.go:314-355 | extraction depends only on the octets it takes: nothing appended changes it, and a buffer cut inside the frame holds none |
| Quadros.EncodeExtrairSse | goalarmeitbl/protocol.go:284-292 | an encoded long frame is extracted at its full length if and only if the body has at most 255 octets and not 0xf7, and then type, payload and trailing checksum are those encoded |
| Quadros.FramesConcat | goalarmeitbl/receptor_tratador.go:80-91 | frames and leftover of a stream do not change when its beginning is cut up before the rest arrives |
| Quadros.SobraIncompleta | goalarmeitbl/receptor_tratador.go:80-95 | the leftover is a suffix of the stream and holds no complete frame |
| Quadros.FramesIndependemDosPedacos | goalarmeitbl/receptor_tratador.go:32-35 | a reader that drains its buffer after each chunk sees the frames of the whole stream, for every split into chunks |
| Quadros.FramesDaTransmissao | goalarmeitbl/protocol.go:284-355 | encoded frames sent back to back are all recovered in order, with nothing left over |
| Quadros.DataHoraIdaEVolta | goalarmeitbl/protocol.go:298-312 | the date answer is one frame of 10 octets that reads back as the date sent, years outside 2000 to 2099 reading as 2000 |
| Quadros.ParseRIPAlarme | goalarmeitbl/protocol.go:386-479 | the early returns and the table lookup compute the alarm in which each field is decoded on its own, kept up to the first bad one, and described by the table's entry for its code and qualifier |
| Quadros.AlarmeIdaEVolta | goalarmeitbl/protocol.go:386-479 | an encoded alarm, without photos (0xb0) or with (0xb5), is extracted and parsed back to every one of its fields and the description that the table has for it |
| Quadros.LeiturasConcordamSse | alarmeitbl/tratador.py:321-363 | the Python reading, which goes on after a field that is not a number, equals the Go one if and only if the Go one accepts the alarm or its length is wrong |
| Quadros.ErroDoAlarmeSse | goalarmeitbl/protocol.go:386-443 | the error reported is the wrong length or the first field not made of digits, and an alarm is valid if and only if there is none |
| Quadros.DescricaoSse | goalarmeitbl/protocol.go:445-476 | an event is known if and only if it has type 18 and the table has a text for its code: the opening text for qualifier 1 and the restoral text for 3 where there are such, else the common one |
| ReceptorTratador.TratadorReceptorIP.constructor | goalarmeitbl/receptor_tratador.go:21-27 | a new handler has received nothing and satisfies the invariant |
| ReceptorTratador.TratadorReceptorIP.Recv | goalarmeitbl/receptor_tratador.go:32-35 | every chunk keeps: handled frames are exactly those of everything received, the buffer is its leftover, each was answered once in order, the panel is identified and its timer gone if and only if an identification is among the frames, and the incomplete-frame timer ends 60 s after the first octet of the leftover arrived |
| ReceptorTratador.TratadorReceptorIP.Parse | goalarmeitbl/receptor_tratador.go:76-96 | the loop handles exactly the frames of the buffer in order, leaves their leftover, and sets, keeps or clears the incomplete-frame timer accordingly |
| ReceptorTratador.TratadorReceptorIP.TrataPacote | goalarmeitbl/receptor_tratador.go:98-124 | one frame of any type gets exactly one answer and its own effects |
| ReceptorTratador.TratadorReceptorIP.RespostaGenerica | goalarmeitbl/receptor_tratador.go:126-128 | the generic answer is the single octet 0xfe |
| ReceptorTratador.TratadorReceptorIP.IdentificacaoCentral | goalarmeitbl/receptor_tratador.go:130-150 | one answer always; the panel is identified and the timer freed if and only if the payload has 7 octets |
| ReceptorTratador.TratadorReceptorIP.SolicitaDataHora | goalarmeitbl/receptor_tratador.go:152-155 | one answer, carrying the date that the clock reads |
| ReceptorTratador.TratadorReceptorIP.EventoAlarme | goalarmeitbl/receptor_tratador.go:157-179 | one answer always; the two scripts run if and only if the alarm is valid, with its decoded fields |
| ReceptorTratador.RespostaDoQuadro | goalarmeitbl/receptor_tratador.go:98-128 | the answers of a run are as many as its frames, and answer i is the one for frame i at the clock reading of that moment |
| ReceptorTratador.SobraDentroDoPedaco | goalarmeitbl/receptor_tratador.go:80-95 | when a chunk completes a frame, whatever is left lies inside that chunk |
| ReceptorTratador.EsperaDepoisDoPedaco | goalarmeitbl/receptor_tratador.go:85-95 | setting, keeping and clearing the timer as the code does is the same as counting 60 s from when the first octet of the leftover arrived, so later partial chunks never extend it |
| ReceptorTratador.PrazoPeloPedaco | goalarmeitbl/receptor_tratador.go:93-95 | that deadline is 60 s after the chunk in which the leftover begins |
| ReceptorTratador.TiposNaFrente | goalarmeitbl/receptor_tratador.go:98-124 | the octets that make an identification, an alarm or a date request of the frame at the head of the buffer: type 0x94 of length 7, 0xb0 or 0xb5, 0x80 |
| ReceptorTratador.AlgumaIdentificacaoSse | goalarmeitbl/receptor_tratador.go:105-150 | the frames that identify the panel are the long ones of type 0x94 with 7 octets of payload |
| ReceptorTratador.IdentificacaoCodificada | goalarmeitbl/receptor_tratador.go:105-150 | an encoded frame identifies the panel if and only if its body is 0x94 and six octets, and runs no script unless it is 0xb0 or 0xb5 |
| ReceptorTratador.GanchosDeMaisUm | goalarmeitbl/receptor_tratador.go:109-112 | a frame of type 0xb0 adds the scripts of its alarm without photos, one of type 0xb5 those with photos, any other none |
| ReceptorTratador.AlarmeCodificadoAvisa | goalarmeitbl/receptor_tratador.go:157-179 | an encoded alarm of either type has the event script and the message script run with its fields |
| TratadorPython.UmaRespostaSse | alarmeitbl/tratador.py:267-297 | a frame gets exactly one answer, and then the one that the Go receiver gives, if and only if it is not an identification, or is one well-formed and let in, or neither |
| TratadorPython.SoAlarmeAvisa | alarmeitbl/tratador.py:250-261 | no frame but an alarm runs a script, none but one with photos queues any, and one of the wrong length only gets the generic answer |
| TratadorPython.AlarmeAvisa | alarmeitbl/tratador.py:321-375 | an encoded alarm without photos gets the generic answer, runs the event and message scripts with its fields, and does nothing else |
| TratadorPython.EfeitosMantidos | alarmeitbl/tratador.py:213-378 | every event keeps: answers, scripts run, photos queued, ignoring, identification and its timer are those of the frames processed, in frame order, and nothing else |
| TratadorPython.RitmoMantido | alarmeitbl/tratador.py:148-211 | every event keeps: the backoff is the minimum doubled `nivel` times, frames accepted equal level plus reductions, a level needs its time to be reached, the pending firing is due no earlier than the next level can be, reductions are a second apart |
| TratadorPython.RitmoAvanca | alarmeitbl/tratador.py:189-199 | doubling the backoff keeps those bounds because the firing came late enough |
| TratadorPython.RitmoRecua | alarmeitbl/tratador.py:201-211 | so does halving it |
| TratadorPython.FluxoMantido | alarmeitbl/tratador.py:148-187 | every event, one that ends the program included, keeps: consumed bytes and buffer are the beginning of what arrived, and all of it while nothing is ignored; the frames of the consumed bytes are those processed and the one that ended the program; a complete frame has its firing scheduled, a waiting byte has a firing or a deadline |
| TratadorPython.ConsomeUm | alarmeitbl/tratador.py:213-261 | consuming the head of the buffer adds exactly one frame to those of the bytes consumed |
| TratadorPython.Invariantes | alarmeitbl/tratador.py:101-211 | the three invariants hold after every possible run from a new connection |
| TratadorPython.RecuosLevamTempo | alarmeitbl/tratador.py:197-211 | n reductions of the backoff take at least n seconds |
| TratadorPython.LimiteDeVazao | alarmeitbl/tratador.py:167-211 | for all arrivals, in time T at most T + K - 1 frames are accepted, for every K with 2^K > 8 T + 1 |
| TratadorPython.NivelPorExtenso | alarmeitbl/tratador.py:189-199 | k doublings make the backoff 2^k eighths of a second |
| TratadorPython.PrazosDaCorrida | alarmeitbl/tratador.py:101-187 | in every run an open connection has 120 s from its start to identify its panel, 600 s from the last chunk not ignored, and 60 s from when its head frame was first found incomplete |
| TratadorPython.EsperaDoQuadro | alarmeitbl/tratador.py:175-187 | the wait for an incomplete frame begins at the first firing that finds bytes and no frame, ends at a firing that finds one, and nothing else touches it |
| TratadorPython.FimPorPrazo | alarmeitbl/tratador.py:121-131 | a deadline ends the connection, leaving no timer, and can do so only when what it waits for did not come in that time |
| TratadorPython.RecebidoEhChegado | alarmeitbl/tratador.py:148-157 | the history's received bytes are the concatenation of all that arrived |
| TratadorPython.AgendaRefinaFrames | alarmeitbl/tratador.py:148-187 | in every run the frames processed are the first of the whole stream, followed there by the one that ended the program if one did; while nothing is ignored the rest are in the buffer, and all are processed when no firing is scheduled |
| TratadorPython.MesmosQuadrosQueGo | alarmeitbl/tratador.py:213-261 | in every run the scheduled receiver processes the first of the frames that the draining one handles on the same stream, however each gets it chunked, and all of them once idle and ignoring nothing |
| TratadorPython.AbortaNoDisparoSse | alarmeitbl/tratador.py:267-275 | an event ends the program if and only if it is a firing with an empty identification at the head of the buffer |
| TratadorPython.AbortaSse | alarmeitbl/tratador.py:148-275 | a run ends at the first empty identification of the stream and nowhere else, and a connection that ignores nothing and has no firing scheduled has ended if and only if the stream has one |
| TratadorPython.IgnoraSse | alarmeitbl/tratador.py:117-297 | a connection is being ignored if and only if there were too many when it opened or an identification it sent was turned away, and its panel is identified if and only if one was let in |
| TratadorPython.IgnoradaCala | alarmeitbl/tratador.py:148-151 | once a chunk comes to an ignored connection, whatever follows, nothing more is processed, answered, announced or asked for |
| TratadorPython.AbortaExiste | alarmeitbl/tratador.py:226-274 | the octets 00 94 and one firing end the program |
| TratadorPython.RespostasDaCorrida | alarmeitbl/tratador.py:213-378 | the answers of every run are those of its frames in frame order, and there is one per frame, in order, if and only if every identification was well-formed and let in, or neither |
| TratadorPython.RespostasComoGo | alarmeitbl/tratador.py:263-306 | such frames get the very answers that the Go receiver gives, at the same clock |
| TratadorPython.DuasRespostas | alarmeitbl/tratador.py:267-297 | the octets 01 94 45 and one firing, let in, get two answers |
| TratadorPython.AlarmePedeFotos | alarmeitbl/tratador.py:321-378 | an encoded alarm with photos is answered once and runs both scripts with its fields, and queues its photos 0 to n - 1 in order if its event is known, none otherwise |
| TratadorPython.IdentificacaoCodificada | alarmeitbl/tratador.py:267-297 | an encoded identification identifies the panel and is answered when let in, mutes the connection and is not answered when not; no other type of frame does either |
| TratadorPython.DataHoraRespondida | alarmeitbl/tratador.py:299-306 | an encoded date request gets the date of the clock and has no other effect |
| TratadorPython.ChegadaArma | alarmeitbl/tratador.py:148-157 | frames arriving at an idle connection at the minimum backoff have their first firing armed at their arrival, which is where the exact drain times start |
| TratadorPython.ChegadasNaoAdiam | alarmeitbl/tratador.py:148-157 | chunks arm a firing one backoff after the first of them if none is armed, and however many come none puts it off |
| TratadorPython.DisparoDeQuadro | alarmeitbl/tratador.py:167-187 | with on-time timers the firing that comes next is the frame's, never a reduction, and it processes the first waiting frame |
| TratadorPython.DrenagemExata | alarmeitbl/tratador.py:167-199 | n firings on time process the first n waiting frames, the n-th at the sum of n doubling delays, and no reduction comes in between |
| TratadorPython.DrenagemDoMinimo | alarmeitbl/tratador.py:167-199 | from the minimum backoff the n-th waiting frame is processed (2^n - 1) / 8 s after the first firing was armed |
| TratadorPython.DrenagemPossivel | alarmeitbl/tratador.py:167-187 | an open connection with frames waiting, none of them an empty identification, does have a run of on-time firings for any number of them |
| TratadorPython.UltimoQuadroAquieta | alarmeitbl/tratador.py:167-199 | the firing that consumes the last byte starts the quiet time that exact recovery is counted from |
| TratadorPython.DisparoDeRecuo | alarmeitbl/tratador.py:201-211 | once quiet the next firing is the reduction, at the exact time |
| TratadorPython.RecuperacaoExata | alarmeitbl/tratador.py:189-211 | once quiet each firing undoes one level, and the backoff is back at its minimum exactly four times its value after the first was armed |
| TratadorPython.RecuperacaoPossivel | alarmeitbl/tratador.py:201-211 | a quiet open connection does have a run of on-time reductions for all its levels |
| TratadorPython.Tratador.constructor | alarmeitbl/tratador.py:101-119 | a new handler is in the initial state, ignoring its connection when there are too many |
| TratadorPython.Tratador.ReadCallback | alarmeitbl/tratador.py:148-157 | a chunk is appended and announced, or thrown away while ignoring |
| TratadorPython.Tratador.RecvCallback | alarmeitbl/tratador.py:148-157 | restarts the communication timer and schedules a firing unless one is |
| TratadorPython.Tratador.ProcessarMsg | alarmeitbl/tratador.py:167-173 | one firing is the step of the specification: at most one frame, then doubling, then rescheduling if bytes are left |
| TratadorPython.Tratador.ConsomeMsg | alarmeitbl/tratador.py:175-187 | a frame is consumed if and only if one is complete, and the incomplete-frame timer is cancelled or set |
| TratadorPython.Tratador.ConsomeFrameCurto | alarmeitbl/tratador.py:213-220 | together with the next, consumes exactly the frame that extraction finds |
| TratadorPython.Tratador.ConsomeFrameLongo | alarmeitbl/tratador.py:222-261 | consumes the long frame that extraction finds and has its effect, scripts and photos included |
| TratadorPython.Tratador.TrataMensagem | alarmeitbl/tratador.py:250-261 | each type of message has its effect and no other |
| TratadorPython.Tratador.EventoAlarme | alarmeitbl/tratador.py:321-378 | one answer always; scripts if and only if the length is right, photos if and only if the event is known and has them |
| TratadorPython.Tratador.AvisaAlarme | alarmeitbl/tratador.py:341-375 | the table lookup, the two scripts and the photos queued |
| TratadorPython.Tratador.SolicitaDataHora | alarmeitbl/tratador.py:299-306 | the answer framed by hand is the encoded date frame |
| TratadorPython.Tratador.IdentificacaoCentral | alarmeitbl/tratador.py:267-297 | answers, ignoring, identification, timer and failure in every branch |
| TratadorPython.Tratador.AvancarBackoff | alarmeitbl/tratador.py:189-199 | doubles the backoff and rearms its reduction |
| TratadorPython.Tratador.RecuarBackoff | alarmeitbl/tratador.py:201-211 | halves the backoff down to the minimum and rearms its reduction while above it |
| TratadorPython.Tratador.Destroy | alarmeitbl/myeventloop/__init__.py:448-465 | a destroyed handler has no timer pending |
| SessaoFoto.FaseMantida | alarmeitbl/comandos.py:26-152 | every event keeps: a live session has its timer pending, a dead one reported once, what was sent and collected fits the phase, at most 258 waits began, success comes with the file |
| SessaoFoto.SucessoFica | alarmeitbl/comandos.py:26-31 | after success every event keeps status and file, and the session can only report success |
| SessaoFoto.SucessoFicaNaCorrida | alarmeitbl/obtem_fotos.py:24-28 | so it is in every continuation: the file stays, and if the session ends it reports success once |
| SessaoFoto.FaseAutentica | alarmeitbl/comandos.py:76-103 | the authentication handler keeps it in every branch |
| SessaoFoto.FaseColeta | alarmeitbl/obtem_fotos.py:40-84 | the fragment handler keeps it in every branch |
| SessaoFoto.BytesMantidos | alarmeitbl/comandos.py:50-74 | every event keeps: packets handled and buffer make up what was received, and the messages handled are those of that stream |
| SessaoFoto.TempoMantido | alarmeitbl/comandos.py:26-48 | with on-time firing every event keeps the session within 15 s for each wait begun |
| SessaoFoto.EsperaSempre | alarmeitbl/comandos.py:15-48 | in every run a session that has not ended is waiting, and its wait ends 15 s after it began |
| SessaoFoto.RelatoDaFalha | alarmeitbl/comandos.py:26-152 | a session that fails reports 1 if the connection or the wait failed or the panel sent a one-octet refusal, and 2 in every other case |
| SessaoFoto.ContinuaSse | alarmeitbl/comandos.py:76-131 | a session goes on after an answer if and only if it is the one awaited |
| SessaoFoto.Invariantes | alarmeitbl/comandos.py:10-152 | both invariants hold after every possible run from a new session |
| SessaoFoto.SucessoTrazOsBytes | alarmeitbl/obtem_fotos.py:30-84 | success is reported only if the stream began with an accepted authentication and answers 1 to N to the requests made, and the file is their picture bytes in order |
| SessaoFoto.SessaoTermina | alarmeitbl/comandos.py:10-152 | with on-time firing nothing happens later than 3870 s: by then one status was reported, and until then the timer is pending |
| SessaoFoto.AutenticacaoLida | alarmeitbl/utils_proto.py:88-94 | the first packet, parsed back, is command 0xf0f0 with 02, digits that decode to the password, and 10 |
| SessaoFoto.PedidoLido | alarmeitbl/obtem_fotos.py:35-38 | the request for fragment k, parsed back, is command 0x0bb0 with the index in two octets, then the photo, then k |
| SessaoFoto.DialogoDaSessao | alarmeitbl/obtem_fotos.py:9-84 | in every run the bytes sent, read by the panel, are one authentication, the requests for fragments 1, 2, ... of the photo, and after success the farewell, with nothing else and nothing left over |
| SessaoFoto.AtendePedido | alarmeitbl/obtem_fotos.py:40-84 | a panel that looks only at the octets of a request finds in it the fragment of the photo that the session awaits |
| SessaoFoto.PedacoNaoImporta | alarmeitbl/comandos.py:50-58 | part of a packet changes only the buffer, extends no wait, and makes no difference to what the rest does |
| SessaoFoto.EntregaEmPedacos | alarmeitbl/comandos.py:50-74 | a packet delivered in any number of pieces has the effect of the packet |
| SessaoFoto.RespostaColetada | alarmeitbl/obtem_fotos.py:40-84 | the answer to request k is collected and request k + 1 made, or after the last the file saved |
| SessaoFoto.FotoColetada | alarmeitbl/obtem_fotos.py:30-84 | from the request for fragment k on, a panel whose answers depend on the request octets alone has the rest of the photo collected and the whole picture saved |
| SessaoFoto.SenhaAceita | alarmeitbl/comandos.py:33-48 | after an accepted password the session awaits fragment 1 and what it last sent is the request for it |
| SessaoFoto.FotoDeCentralCorreta | alarmeitbl/obtem_fotos.py:9-84 | a panel that holds the photo, opens to the password and answers what it is asked, as a function of the request octets, has its picture of 1 to 255 parts saved whole, each answer cut into any pieces |
| SessaoFoto.FotoRelatada | alarmeitbl/obtem_fotos.py:9-84 | and however the session goes on, the picture stays and the one status it can report is success |
| SessaoFoto.UmPacotePorVez | alarmeitbl/comandos.py:53-58 | one packet is handled per receive and what follows it stays in the buffer |
| SessaoFoto.ObtemFotosDeEvento.constructor | alarmeitbl/obtem_fotos.py:10-22 | a new session is connecting, with its timer pending and status 2 |
| SessaoFoto.ObtemFotosDeEvento.Destroy | alarmeitbl/obtem_fotos.py:25-28 | reports the status; callable only once, and every caller is shown to respect that |
| SessaoFoto.ObtemFotosDeEvento.ConnectionCallback | alarmeitbl/comandos.py:33-48 | a failed connection ends with status 1, a good one asks for authentication |
| SessaoFoto.ObtemFotosDeEvento.ConnTimeout | alarmeitbl/comandos.py:26-31 | the timeout ends with status 1 unless already successful |
| SessaoFoto.ObtemFotosDeEvento.ShutdownCallback | alarmeitbl/myeventloop/tcpclient.py:80-86 | the peer closing ends the session, which reports the status it has |
| SessaoFoto.ObtemFotosDeEvento.RecvCallback | alarmeitbl/comandos.py:50-74 | one receive is the step of the specification, in every branch |
| SessaoFoto.ObtemFotosDeEvento.TrataAutenticacao | alarmeitbl/comandos.py:76-103 | goes on only after the one-octet answer 0 |
| SessaoFoto.ObtemFotosDeEvento.TrataComando | alarmeitbl/comandos.py:116-131 | only the expected command or an acknowledgement reaches the fragment handler |
| SessaoFoto.ObtemFotosDeEvento.TrataFragmento | alarmeitbl/obtem_fotos.py:40-84 | only the fragment asked for of the photo asked for is collected; then the next is requested or the file saved |
| SessaoFoto.ObtemFotosDeEvento.ObtemFragmentoFoto | alarmeitbl/obtem_fotos.py:35-38 | requests the current fragment and begins a wait |
| SessaoFoto.ObtemFotosDeEvento.Despedida | alarmeitbl/comandos.py:133-143 | says goodbye, sets success and begins the last wait |
| SessaoFoto.ObtemFotosDeEvento.Nak | alarmeitbl/comandos.py:145-152 | a refusal ends the session, as temporary if well-formed |
| FilaFotos.InvMantido | alarmeitbl/tratador_fotos.py:27-81 | an event keeps the invariant if and only if it is not an immediate attempt asked for without a pending timer: idle, or timer pending, or one download in flight for the first photo; photos in equal photos out plus queued, in order; attempts and sessions balance |
| FilaFotos.ResultaMantem | alarmeitbl/tratador_fotos.py:63-81 | each result is applied to the photo that was requested and keeps the balance |
| FilaFotos.EfeitoDoResultado | alarmeitbl/tratador_fotos.py:63-81 | status 0 removes the first photo as obtained with its file, 2 removes it as a fatal error, any other takes one attempt and removes it as exhausted at the last; the rest stays in order and the next attempt is due one delay later |
| FilaFotos.DesfechoDeCadaFoto | alarmeitbl/tratador_fotos.py:63-81 | in every run with attempts asked for in time, a photo is obtained if and only if the last status its sessions reported is 0, fatal if and only if it is 2, exhausted if and only if there were ten and none is either; no earlier one is |
| FilaFotos.RelatosMantidos | alarmeitbl/tratador_fotos.py:27-81 | every event keeps that, and the statuses heard so far of the first photo are as many as its attempts used and none decides it |
| FilaFotos.PrimeiraTentativa | alarmeitbl/tratador_fotos.py:28-38 | a photo enters an idle queue with ten attempts, the first of them 20 s later, or 0.1 s after it is hurried |
| FilaFotos.ImediatoSse | alarmeitbl/tratador_fotos.py:37-38 | asking for an immediate attempt keeps the invariant if and only if the timer is pending |
| FilaFotos.ComandoFalhaSse | alarmeitbl/tratador_fotos.py:28-38 | the photo command, which queues and at once asks for an immediate attempt, fails if and only if its password size is not positive |
| FilaFotos.ImediatoDuplica | alarmeitbl/tratador_fotos.py:37-56 | asked for during a download, an immediate attempt leads to two downloads of the same photo |
| FilaFotos.TodaCorrida | alarmeitbl/tratador_fotos.py:27-81 | in every possible run the invariant holds throughout if and only if every immediate attempt is asked for with the timer pending |
| FilaFotos.CadaFotoUmaVez | alarmeitbl/tratador_fotos.py:27-81 | from the empty queue photos leave in the order they came, each once, after 1 to 10 sessions, 10 if given up, and every session is accounted for |
| FilaFotos.ResultadoGasta | alarmeitbl/tratador_fotos.py:63-81 | the sum of attempts left strictly falls with each result |
| FilaFotos.LimiteNaoCresce | alarmeitbl/tratador_fotos.py:27-81 | no on-time event moves the last possible moment of the first n photos still queued, more queueing included; an immediate attempt moves it by its 0.1 s at most |
| FilaFotos.FilaEsvazia | alarmeitbl/tratador_fotos.py:27-81 | whatever is queued behind them, with on-time events the first n photos are waited for no longer than ten attempts at each can take |
| FilaFotos.FilaAvanca | alarmeitbl/tratador_fotos.py:40-81 | while photos wait there is an on-time event that can happen |
| FilaFotos.SucessoTraz | alarmeitbl/obtem_fotos.py:24-28 | a session that reports success to the queue brings the picture of the photo it was started for |
| FilaFotos.FotoObtidaEhAPedida | alarmeitbl/tratador_fotos.py:62-81 | end to end, with results that come from sessions, each photo that the queue counts as obtained has its own whole picture in its file |
| FilaFotos.SessaoDura | alarmeitbl/comandos.py:10-152 | sessions keep to the duration that the deadline counts on and report 0, 1 or 2, 0 exactly with a file |
| FilaFotos.TratadorDeFotos.constructor | alarmeitbl/tratador_fotos.py:17-25 | a new queue is empty and has no timer |
| FilaFotos.TratadorDeFotos.Enfileirar | alarmeitbl/tratador_fotos.py:28-34 | appends with ten attempts and arms the timer if there is none; does nothing without a password |
| FilaFotos.TratadorDeFotos.ImediatoAgora | alarmeitbl/tratador_fotos.py:37-38 | resets the timer to 0.1 s, or raises when there is none |
| FilaFotos.TratadorDeFotos.ObtemFoto | alarmeitbl/tratador_fotos.py:40-56 | starts a download of the first photo at the right address, or drops the timer when there is none |
| FilaFotos.TratadorDeFotos.ResultadoFoto | alarmeitbl/tratador_fotos.py:63-81 | the new queue for each status, and the invariant |
| FilaFotos.TratadorDeFotos.TrataStatus | alarmeitbl/tratador_fotos.py:64-79 | each status is applied to the first photo and counted |
| SessaoTCP.FasesMantidas | goalarmeitbl/tcpsession.go:74-191 | every step of any goroutine keeps: nobody posts to a closed channel, none is closed twice, Close is called at most once, and where each goroutine can be |
| SessaoTCP.RankDecresce | goalarmeitbl/tcpsession.go:85-191 | once Close is called every step of any goroutine lowers the rank |
| SessaoTCP.SempreHaProximo | goalarmeitbl/tcpsession.go:158-191 | a closing session that has not ended has a goroutine that can move |
| SessaoTCP.CloseTermina | goalarmeitbl/tcpsession.go:158-191 | under every interleaving Close ends within the rank, with both goroutines gone, queues empty, Events closed once and the owner told once |
| SessaoTCP.EnvioMantido | goalarmeitbl/tcpsession.go:107-154 | every step keeps: Send arguments are those taken, the shutdown mark, those thrown away and those queued, in order, and the wire carries what was taken |
| SessaoTCP.EscreveMantem | goalarmeitbl/tcpsession.go:116-133 | a partial write moves exactly its bytes from hand to wire |
| SessaoTCP.FioEhPrefixo | goalarmeitbl/tcpsession.go:107-143 | the wire carries a prefix of all that was sent before the first empty slice, and without errors wire, hand and queue make up all of it |
| SessaoTCP.RecepcaoMantida | goalarmeitbl/tcpsession.go:85-104 | every step keeps: bytes read are those delivered, drained, queued and in hand, in that order |
| SessaoTCP.AvisoDaLeitura | goalarmeitbl/tcpsession.go:85-101 | what a read returns reaches the user as one event: the data, after which reading goes on, the end of the stream, or the error |
| SessaoTCP.AvisoDaEscrita | goalarmeitbl/tcpsession.go:116-135 | an item written whole is announced with the number still queued and the next is awaited; a failed write is announced as what it is and nothing more is written |
| SessaoTCP.TodaIntercalacao | goalarmeitbl/tcpsession.go:74-191 | all of this holds after every possible interleaving from the start |
| ReceptorNaSessao.InvMantido | goalarmeitbl/receptor_tratador.go:29-96 | every step of the handler or of a goroutine keeps: frames handled and buffer are those of the bytes delivered, answers are one per frame and were sent in order, nothing is pending between events |
| ReceptorNaSessao.UmaRespostaPorQuadroNoFio | goalarmeitbl/receptor_tratador.go:29-128 | under every interleaving the frames handled are the first of the bytes read, the wire carries a prefix of one answer per frame in order, and between events without errors wire, hand and queue hold all of them |
| Contador.VerificaAlterna | goalarmeitbl/receptor.go:72-86 | the hourly check keeps the script hearing 1 and 0 in turn and leaves the flag set if and only if the count is not positive |
| Contador.InvMantido | goalarmeitbl/receptor.go:32-46 | every step keeps the count equal to the number of sessions started and not ended |
| Contador.ContagemExata | goalarmeitbl/receptor.go:32-46 | under every interleaving of posters the count is exact and never negative, the script hears 1, 0, 1, 0, and after a check it last heard 1 if and only if no session is connected |
| Contador.ReceptorIP.New | goalarmeitbl/receptor.go:34-37 | counts a session in |
| Contador.ReceptorIP.Closed | goalarmeitbl/receptor.go:38-40 | counts a session out |
| Contador.ReceptorIP.CentralNaoConectada | goalarmeitbl/receptor.go:72-86 | runs the script on a change only |
| Temporizadores.ProximoSse | alarmeitbl/myeventloop/__init__.py:184-193 | nothing is chosen if and only if nothing is due within the horizon; the one chosen is due first, the earliest registered among equals |
| Temporizadores.HandleDispara | alarmeitbl/myeventloop/__init__.py:209-219 | nothing runs if and only if nothing is due; what runs was pending, valid and due first, and it alone leaves the registry |
| Temporizadores.InvMantido | alarmeitbl/myeventloop/__init__.py:182-322 | every call keeps: no timeout registered twice, none pending is invalid, only timeouts of destroyed handlers are invalid |
| Temporizadores.OrfaoSse | alarmeitbl/myeventloop/__init__.py:222-227 | after any call no timeout of a destroyed handler is pending if and only if the call did not rearm one |
| Temporizadores.TodaCorrida | alarmeitbl/myeventloop/__init__.py:448-517 | in every run of calls the invariant holds, and no state ever has a destroyed handler's timeout pending if and only if no call rearms one |
| Temporizadores.QuemDisparouSobrevive | alarmeitbl/myeventloop/__init__.py:209-227 | any timeout that has run can be armed again after its handler is destroyed, without an exception |
| Temporizadores.CancelRetira | alarmeitbl/myeventloop/__init__.py:303-314 | a cancelled timeout is not pending, the others are those pending before in the same order, and no data changes |
| Temporizadores.SoRearmeTraz | alarmeitbl/myeventloop/__init__.py:182-322 | in every run a timeout that ran or was cancelled is not due again until a restart or reset of it |
| Temporizadores.ArmadoEspera | alarmeitbl/myeventloop/__init__.py:273-301 | a timeout armed for some time is not run before it has passed, and then something is due; no other timeout is touched and places are kept |
| Temporizadores.DestroyLimpa | alarmeitbl/myeventloop/__init__.py:448-465 | destroying a handler takes away exactly its pending timeouts, keeping the order of the rest, and invalidates exactly those |
| Temporizadores.UsoDepoisDeDestruir | alarmeitbl/myeventloop/__init__.py:250-314 | after that any use of a timeout taken away raises, and so does a new one for the handler or destroying it again |
| Temporizadores.SoDestruidoLevanta | alarmeitbl/myeventloop/__init__.py:259-314 | a call raises only for a destroyed handler or a timeout of one |
| Temporizadores.OrfaoExiste | alarmeitbl/myeventloop/__init__.py:221-227 | a concrete registry, two calls from the empty one, in which that happens |
| Temporizadores.Registro.NewHandler | alarmeitbl/myeventloop/__init__.py:432-446 | a new handler is registered as live |
| Temporizadores.Registro.New | alarmeitbl/myeventloop/__init__.py:504-517 | a new timeout is registered last, unless its handler was destroyed |
| Temporizadores.Registro.Restart | alarmeitbl/myeventloop/__init__.py:273-288 | rearms with the same delay, keeping its place if pending; raises when invalidated |
| Temporizadores.Registro.Reset | alarmeitbl/myeventloop/__init__.py:290-301 | rearms with a new delay; raises when invalidated |
| Temporizadores.Registro.Cancel | alarmeitbl/myeventloop/__init__.py:303-314 | removes it and tells whether it was pending; raises when invalidated |
| Temporizadores.Registro.Next | alarmeitbl/myeventloop/__init__.py:184-193 | the loop computes the one that the specification chooses |
| Temporizadores.Registro.Handle | alarmeitbl/myeventloop/__init__.py:209-219 | removes and returns the one due, if any |
| Temporizadores.Registro.CancelAndInvalByOwner | alarmeitbl/myeventloop/__init__.py:222-227 | removes and invalidates exactly the owner's pending timeouts, none for a second time, and keeps the order of the rest |
| Temporizadores.Registro.Destroy | alarmeitbl/myeventloop/__init__.py:448-465 | marks the handler, drops it from the items and its timeouts from the registry; raises on a second call |
| Bits.BitsParaNumeros | alarmeitbl/comandos.py:289-296 | the nested loops list, in increasing order and each once, exactly the items whose bit is set, or clear when inverted |
| Bits.ListagemUnica | alarmeitbl/comandos.py:289-296 | a mask has one such listing |
| Bits.ListagemFiel | alarmeitbl/comandos.py:289-296 | masks of one length with the same listing are the same mask |
| Bits.ListagemExemplo | alarmeitbl/comandos.py:289-296 | octets 05 and 80 are listed as 1, 3 and 16, and 05 inverted as 2, 4, 5, 6, 7 and 8 |

## Left out

- Sockets, select, dialling, scripts, file writes, logs, configuration, command line: input and output; they appear as events, parameters and sequences of what was sent or run.
- `goalarmeitbl/timeout.go`: a fired Go timer posts after releasing its lock and may race with the closing of `Events`, so `SessaoTCP` has the receiving and sending goroutines only.
- Deadlock of `Send` before `Close`: both channels are bounded and the handler that drains one fills the other, so the code gives no guarantee; a `Send` still blocked when `Close` is called is not modelled either.
- Goroutine bodies as methods: `SessaoTCP` gives each loop as its steps, which is what interleaving needs, and not as Dafny loops.
- `TCPServer.Close` and the adoption of sessions by `Parent`: the receiver program uses neither.
- `goalarmeitbl/comandocentral.go`, `goalarmeitbl/tcpclient.go`, and the commands other than the photo download in both programs: thin wrappers over the same state machine.
- Quadros.ParseRIPAlarme: gives the description as the table's text with its numbers beside it; writing them into the text is not modelled, nor are the messages printed for errors. The table itself is a parameter.
- Bits.BitsParaNumeros: gives the numbers, not the string that joins them.
- Machine integers in the Go decoders: numbers are unbounded, so an overflow on a very long digit string is not modelled.
- Protocolo.FromBCD: does not model the Python variant, which accepts nibbles above 9.
- Protocolo.BE16IdaEVolta: models the truncation of the Go code; the Python code instead fails later on a number above 65535, which no index received from a panel reaches.
- SessaoFoto.FotoDeCentralCorreta: assumes a photo index below 65536, a password of fewer than 65532 digits, and that no received piece spans two packets, which holds of a panel that waits for each request.
- SessaoFoto.DialogoDaSessao: assumes the same of index and password, which fill the fields of the packets.
- TratadorPython.LimiteDeVazao: time is exact; powers of two are exact in floating point, sums with the clock are not.
- The address of a photo that the Python handler queues: the panel's own, which the queue model takes as given.
- ReceptorNaSessao.UmaRespostaPorQuadroNoFio: the handler's timers are not events of this system; closing, which they cause, may follow any event.
- Contador.ContagemExata: each session announces its end once, as `SessaoTCP.CloseTermina` shows; the server stays open.
- Temporizadores.HandleDispara: the callback runs after the step; a direct call of `invalidate`, which nothing makes, is not modelled, nor is the reuse of object identities by the interpreter.
- Fairness of the event loop between sockets and timers: assumed only where a time bound is claimed.
