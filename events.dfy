/** What the device objects make visible to the rest of the program: the Qt
    signals they emit and the device commands they run themselves, kept as
    one log in the order they happen. */
module Events {

  import opened Bytes

  datatype Event =
    | NewFBFound(width: int, height: int, format: int)  // newFBFound
    | DeviceDisconnected                                 // deviceDisconnected
    | NewFrame(data: seq<byte>)                          // newFrame(&out), with out's contents
    | ScreenTurnedOn                                     // screenTurnedOn
    | ScreenTurnedOff                                    // screenTurnedOff
    | NewCommand(args: seq<string>)                      // newCommand(cmds)
    | PromptMessage(text: string)                        // newPropmtMessae
    | Executed(args: seq<string>)                        // adb.run(args) on a local executor
}
